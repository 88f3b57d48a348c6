/** The index tables of `crates/notes-ai/src/store.rs` and what each transaction makes of them. */
module AiIndex {
  import opened Results

  /** A 128-bit identifier. */
  type Uuid = nat

  /** A vector as its little-endian words. */
  type Embedding = seq<nat>

  datatype Status = Building | Active | Retired

  /** A row of `embedding_jobs`. */
  datatype Job = Job(hash: string, text: string, header: string, seqno: int, enqueued: int, retries: nat,
                     lastAttempt: Option<int>, lastError: Option<string>, terminal: bool)

  /** A row of `generation_vectors`; its key is the document and the chunk index. */
  datatype Row = Row(text: string, rowid: nat, hash: string, seqno: int)

  type Key = (Uuid, nat)

  /** A row of `index_generations` with everything stored under its identifier. */
  datatype Generation = Generation(
    dimensions: nat, status: Status, cursor: Option<string>, sources: nat,
    jobs: map<Uuid, Job>, rows: map<Key, Row>, vectors: map<nat, Embedding>)

  type Tables = map<Uuid, Generation>

  /** A document as the notes have it. */
  datatype Document = Document(hash: string, text: string, header: string)

  datatype Chunk = Chunk(index: nat, text: string, embedding: Embedding)
  datatype Embedded = Embedded(content: Uuid, hash: string, chunks: seq<Chunk>)

  ghost predicate OneActive(t: Tables) {
    forall x, y :: x in t && y in t && t[x].status.Active? && t[y].status.Active? ==> x == y
  }

  // ----- the invariant of one generation

  /** Mapping rows and vectors name each other one to one. */
  ghost predicate Linked(rows: map<Key, Row>, vectors: map<nat, Embedding>) {
    && (forall k :: k in rows ==> rows[k].rowid > 0 && rows[k].rowid in vectors)
    && (forall r :: r in vectors ==> exists k :: k in rows && rows[k].rowid == r)
    && (forall k, l :: k in rows && l in rows && rows[k].rowid == rows[l].rowid ==> k == l)
  }

  /** The chunks of a document are numbered 0 up to some count, and all carry one input hash. */
  ghost predicate Numbered(rows: map<Key, Row>) {
    && (forall c, i, j :: (c, i) in rows && 0 <= j < i ==> (c, j) in rows)
    && (forall c, i :: (c, i) in rows ==> (c, 0) in rows && rows[(c, i)].hash == rows[(c, 0)].hash)
  }

  ghost predicate Sized(g: Generation) { forall r :: r in g.vectors ==> |g.vectors[r]| == g.dimensions }

  ghost predicate Consistent(g: Generation) { Linked(g.rows, g.vectors) && Numbered(g.rows) && Sized(g) }

  predicate Indexed(rows: map<Key, Row>, c: Uuid) { (c, 0) in rows }

  /** The input hash a document is indexed under. */
  function HashOf(rows: map<Key, Row>, c: Uuid): Option<string> {
    if (c, 0) in rows then Some(rows[(c, 0)].hash) else None
  }

  function Contents(rows: map<Key, Row>): set<Uuid> { set k | k in rows :: k.0 }

  lemma ContentsAreIndexed(rows: map<Key, Row>, c: Uuid)
    requires Numbered(rows)
    ensures c in Contents(rows) <==> Indexed(rows, c)
  {
    if c in Contents(rows) {
      var k :| k in rows && k.0 == c;
      assert (c, k.1) in rows;
    }
    if Indexed(rows, c) {
      assert (c, 0).0 == c;
    }
  }

  // ----- delete_document_vectors

  function RowidsOf(rows: map<Key, Row>, c: Uuid): set<nat> { set k | k in rows && k.0 == c :: rows[k].rowid }

  function RowsWithout(rows: map<Key, Row>, c: Uuid): map<Key, Row> { map k | k in rows && k.0 != c :: rows[k] }

  function DeleteDocument(g: Generation, c: Uuid): Generation {
    g.(rows := RowsWithout(g.rows, c), vectors := g.vectors - RowidsOf(g.rows, c))
  }

  /** Keeping some rows with exactly their vectors keeps the link between them. */
  lemma LinkedKept(rows: map<Key, Row>, vectors: map<nat, Embedding>, kept: map<Key, Row>, left: map<nat, Embedding>)
    requires Linked(rows, vectors) && (forall k :: k in kept ==> k in rows && kept[k] == rows[k])
    requires forall k :: k in kept ==> kept[k].rowid in left
    requires forall r :: r in left ==> exists k :: k in kept && kept[k].rowid == r
    ensures Linked(kept, left)
  {
  }

  /** Keeping or dropping documents as a whole keeps their chunks numbered. */
  lemma NumberedKept(rows: map<Key, Row>, kept: map<Key, Row>)
    requires Numbered(rows) && (forall k :: k in kept ==> k in rows && kept[k] == rows[k])
    requires forall c, i, j :: (c, i) in kept && (c, j) in rows ==> (c, j) in kept
    ensures Numbered(kept)
  {
  }

  lemma DeleteKeepsConsistent(g: Generation, c: Uuid)
    requires Consistent(g)
    ensures Consistent(DeleteDocument(g, c))
    ensures !Indexed(DeleteDocument(g, c).rows, c)
    ensures forall d :: d != c ==> HashOf(DeleteDocument(g, c).rows, d) == HashOf(g.rows, d)
  {
    hide Linked, Numbered;
    var h := DeleteDocument(g, c);
    DeletedLinks(g, c);
    LinkedKept(g.rows, g.vectors, h.rows, h.vectors);
    NumberedKept(g.rows, h.rows);
  }

  lemma DeletedLinks(g: Generation, c: Uuid)
    requires Linked(g.rows, g.vectors)
    ensures var h := DeleteDocument(g, c);
      && (forall k :: k in h.rows ==> h.rows[k].rowid in h.vectors)
      && (forall r :: r in h.vectors ==> exists k :: k in h.rows && h.rows[k].rowid == r)
  {
    var h := DeleteDocument(g, c);
    forall k | k in h.rows
      ensures h.rows[k].rowid in h.vectors
    {
      assert g.rows[k] == h.rows[k];
    }
    forall r | r in h.vectors
      ensures exists k :: k in h.rows && h.rows[k].rowid == r
    {
      var k :| k in g.rows && g.rows[k].rowid == r;
      assert k in h.rows;
    }
  }

  // ----- next_vector_rowid and the insertion of one document

  ghost function Largest(s: set<nat>): (m: nat)
    ensures forall x :: x in s ==> x <= m
    ensures m == 0 || m in s
  {
    if s == {} then 0
    else
      var x :| x in s;
      var m := Largest(s - {x});
      assert forall y :: y in s ==> y == x || y in s - {x};
      if x > m then x else m
  }

  function AllRowids(rows: map<Key, Row>): set<nat> { set k | k in rows :: rows[k].rowid }

  ghost function NextRowid(rows: map<Key, Row>): (r: nat)
    ensures r > 0
  {
    Largest(AllRowids(rows)) + 1
  }

  lemma NextRowidIsFresh(rows: map<Key, Row>, vectors: map<nat, Embedding>)
    requires Linked(rows, vectors)
    ensures NextRowid(rows) !in vectors && forall k :: k in rows ==> rows[k].rowid < NextRowid(rows)
  {
    forall k | k in rows
      ensures rows[k].rowid < NextRowid(rows)
    {
      assert rows[k].rowid in AllRowids(rows);
    }
  }

  ghost function AddChunk(g: Generation, c: Uuid, hash: string, seqno: int, chunk: Chunk): Generation {
    var r := NextRowid(g.rows);
    g.(rows := g.rows[(c, chunk.index) := Row(chunk.text, r, hash, seqno)], vectors := g.vectors[r := chunk.embedding])
  }

  /** The chunks of a document, one after the other. */
  ghost function AddChunks(g: Generation, c: Uuid, hash: string, seqno: int, chunks: seq<Chunk>): Generation {
    if chunks == [] then g
    else AddChunk(AddChunks(g, c, hash, seqno, chunks[..|chunks| - 1]), c, hash, seqno, chunks[|chunks| - 1])
  }

  /** The checks of `write_embeddings` on one document. */
  predicate WellFormed(d: Embedded, dimensions: nat) {
    && d.chunks != []
    && (forall i :: 0 <= i < |d.chunks| ==> d.chunks[i].index == i && |d.chunks[i].embedding| == dimensions)
  }

  /** Rows of `c` while its first `n` chunks are in place. */
  ghost predicate Filled(rows: map<Key, Row>, c: Uuid, hash: string, n: nat) {
    forall i :: ((c, i) in rows <==> 0 <= i < n) && ((c, i) in rows ==> rows[(c, i)].hash == hash)
  }

  lemma {:induction false} AddedChunks(g: Generation, c: Uuid, hash: string, seqno: int, chunks: seq<Chunk>)
    requires Consistent(g) && !Indexed(g.rows, c)
    requires forall i :: 0 <= i < |chunks| ==> chunks[i].index == i && |chunks[i].embedding| == g.dimensions
    ensures var h := AddChunks(g, c, hash, seqno, chunks);
      && Consistent(h) && Filled(h.rows, c, hash, |chunks|)
      && h == g.(rows := h.rows, vectors := h.vectors)
      && forall d :: d != c ==> HashOf(h.rows, d) == HashOf(g.rows, d)
  {
    if chunks == [] {
      assert forall i :: (c, i) in g.rows ==> (c, 0) in g.rows;
    } else {
      var n := |chunks| - 1;
      AddedChunks(g, c, hash, seqno, chunks[..n]);
      AddedChunk(AddChunks(g, c, hash, seqno, chunks[..n]), c, hash, seqno, chunks[n]);
    }
  }

  lemma AddedChunk(g: Generation, c: Uuid, hash: string, seqno: int, chunk: Chunk)
    requires Consistent(g) && Filled(g.rows, c, hash, chunk.index) && |chunk.embedding| == g.dimensions
    ensures var h := AddChunk(g, c, hash, seqno, chunk);
      && Consistent(h) && Filled(h.rows, c, hash, chunk.index + 1)
      && h == g.(rows := h.rows, vectors := h.vectors)
      && forall d :: d != c ==> HashOf(h.rows, d) == HashOf(g.rows, d)
  {
    hide NextRowid, Linked, Numbered, Filled, HashOf;
    NextRowidIsFresh(g.rows, g.vectors);
    var r, key := NextRowid(g.rows), (c, chunk.index);
    var row := Row(chunk.text, r, hash, seqno);
    KeyFree(g.rows, c, hash, chunk.index);
    LinkOne(g.rows, g.vectors, key, row, chunk.embedding);
    NumberOne(g.rows, c, hash, chunk.index, row);
    OthersKept(g.rows, key, row);
  }

  lemma KeyFree(rows: map<Key, Row>, c: Uuid, hash: string, n: nat)
    requires Filled(rows, c, hash, n)
    ensures (c, n) !in rows
  {
  }

  lemma OthersKept(rows: map<Key, Row>, key: Key, row: Row)
    ensures forall d :: d != key.0 ==> HashOf(rows[key := row], d) == HashOf(rows, d)
  {
  }

  lemma LinkOne(rows: map<Key, Row>, vectors: map<nat, Embedding>, key: Key, row: Row, e: Embedding)
    requires Linked(rows, vectors) && key !in rows && row.rowid !in vectors && row.rowid > 0
    ensures Linked(rows[key := row], vectors[row.rowid := e])
  {
    var more, vs := rows[key := row], vectors[row.rowid := e];
    forall r | r in vs
      ensures exists k :: k in more && more[k].rowid == r
    {
      if r == row.rowid {
        assert key in more;
      } else {
        var k :| k in rows && rows[k].rowid == r;
        assert k in more && more[k] == rows[k];
      }
    }
  }

  lemma NumberOne(rows: map<Key, Row>, c: Uuid, hash: string, n: nat, row: Row)
    requires Numbered(rows) && Filled(rows, c, hash, n) && row.hash == hash
    ensures Numbered(rows[(c, n) := row]) && Filled(rows[(c, n) := row], c, hash, n + 1)
  {
    var more := rows[(c, n) := row];
    forall d, i | (d, i) in more
      ensures (d, 0) in more && more[(d, i)].hash == more[(d, 0)].hash
    {
      if d == c && n > 0 {
        assert (c, 0) in rows;
      }
    }
  }

  /** One document of `write_embeddings`: it counts only while its job still has the hash it was made for. */
  ghost function WriteOne(g: Generation, d: Embedded): Generation {
    if d.content in g.jobs && g.jobs[d.content].hash == d.hash then
      var cleared := DeleteDocument(g, d.content);
      AddChunks(cleared, d.content, d.hash, g.jobs[d.content].seqno, d.chunks).(jobs := g.jobs - {d.content})
    else g
  }

  ghost function WriteAll(g: Generation, ds: seq<Embedded>): Generation {
    if ds == [] then g else WriteOne(WriteAll(g, ds[..|ds| - 1]), ds[|ds| - 1])
  }

  predicate AllWellFormed(ds: seq<Embedded>, dimensions: nat) { forall d :: d in ds ==> WellFormed(d, dimensions) }

  // ----- activation

  function Complete(g: Generation, sources: nat): bool { g.jobs == map[] && |Contents(g.rows)| == sources }

  /** `activate_generation_if_complete`. */
  function Activated(t: Tables, id: Uuid, sources: nat): Tables
    requires id in t
  {
    if Complete(t[id], sources) then
      map x | x in t :: if x == id then t[x].(status := Active) else if t[x].status.Active? then t[x].(status := Retired) else t[x]
    else t
  }

  // ----- reconcile

  /** The row an upsert leaves: a changed input starts over, an unchanged one keeps its attempts. */
  function Upserted(jobs: map<Uuid, Job>, c: Uuid, d: Document, seqno: int, now: int): Job {
    if c in jobs && jobs[c].hash == d.hash then
      jobs[c].(text := d.text, header := d.header, seqno := seqno, enqueued := now)
    else Job(d.hash, d.text, d.header, seqno, now, 0, None, None, false)
  }

  function ReconciledJobs(g: Generation, docs: map<Uuid, Document>, seqno: int, now: int): map<Uuid, Job> {
    map c | c in docs && HashOf(g.rows, c) != Some(docs[c].hash) :: Upserted(g.jobs, c, docs[c], seqno, now)
  }

  function ReconciledRows(rows: map<Key, Row>, docs: map<Uuid, Document>): map<Key, Row> {
    map k | k in rows && k.0 in docs :: rows[k]
  }

  ghost function ReconciledVectors(g: Generation, docs: map<Uuid, Document>): map<nat, Embedding> {
    map r | r in g.vectors && exists k :: k in g.rows && k.0 in docs && g.rows[k].rowid == r :: g.vectors[r]
  }

  ghost function Reconciled(g: Generation, docs: map<Uuid, Document>, token: string, seqno: int, now: int): Generation {
    g.(cursor := Some(token), sources := |docs|, jobs := ReconciledJobs(g, docs, seqno, now),
       rows := ReconciledRows(g.rows, docs), vectors := ReconciledVectors(g, docs))
  }

  lemma ReconciledLinks(g: Generation, docs: map<Uuid, Document>)
    requires Linked(g.rows, g.vectors)
    ensures var rows, vectors := ReconciledRows(g.rows, docs), ReconciledVectors(g, docs);
      && (forall k :: k in rows ==> rows[k].rowid in vectors)
      && (forall r :: r in vectors ==> exists k :: k in rows && rows[k].rowid == r)
  {
    var rows, vectors := ReconciledRows(g.rows, docs), ReconciledVectors(g, docs);
    forall r | r in vectors
      ensures exists k :: k in rows && rows[k].rowid == r
    {
      var k :| k in g.rows && k.0 in docs && g.rows[k].rowid == r;
      assert k in rows;
    }
  }

  lemma ReconciledHashes(g: Generation, docs: map<Uuid, Document>)
    ensures forall c :: c in docs ==> HashOf(ReconciledRows(g.rows, docs), c) == HashOf(g.rows, c)
    ensures forall c :: c !in docs ==> !Indexed(ReconciledRows(g.rows, docs), c)
  {
  }

  lemma ReconciledSized(g: Generation, docs: map<Uuid, Document>)
    requires Sized(g)
    ensures forall r :: r in ReconciledVectors(g, docs) ==> |ReconciledVectors(g, docs)[r]| == g.dimensions
  {
  }

  lemma ReconcileKeepsConsistent(g: Generation, docs: map<Uuid, Document>, token: string, seqno: int, now: int)
    requires Consistent(g)
    ensures Consistent(Reconciled(g, docs, token, seqno, now))
    ensures forall c :: c in docs ==> HashOf(ReconciledRows(g.rows, docs), c) == HashOf(g.rows, c)
    ensures forall c :: c !in docs ==> !Indexed(ReconciledRows(g.rows, docs), c)
  {
    hide Linked, Numbered, ReconciledVectors, HashOf, Indexed, ReconciledJobs;
    ReconciledHashes(g, docs);
    ReconciledSized(g, docs);
    ReconciledLinks(g, docs);
    LinkedKept(g.rows, g.vectors, ReconciledRows(g.rows, docs), ReconciledVectors(g, docs));
    NumberedKept(g.rows, ReconciledRows(g.rows, docs));
  }

  // ----- failures and reset

  function Failed(j: Job, error: string, terminal: bool, now: int): Job {
    j.(retries := j.retries + 1, lastAttempt := Some(now), lastError := Some(error), terminal := terminal)
  }

  /** `record_failure` for one taken job: nothing when its input has changed since. */
  function FailOne(jobs: map<Uuid, Job>, c: Uuid, hash: string, error: string, terminal: bool, now: int): map<Uuid, Job> {
    if c in jobs && jobs[c].hash == hash then jobs[c := Failed(jobs[c], error, terminal, now)] else jobs
  }

  function FailAll(jobs: map<Uuid, Job>, taken: seq<(Uuid, string)>, error: string, terminal: bool, now: int): map<Uuid, Job> {
    if taken == [] then jobs
    else
      var (c, hash) := taken[|taken| - 1];
      FailOne(FailAll(jobs, taken[..|taken| - 1], error, terminal, now), c, hash, error, terminal, now)
  }

  function Reset(g: Generation): Generation {
    g.(status := Building, cursor := None, sources := 0, jobs := map[], rows := map[], vectors := map[])
  }
}
