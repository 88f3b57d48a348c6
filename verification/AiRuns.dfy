/** Every interleaving of the index transactions: what always holds, and what activation means. */
module AiRuns {
  import opened Results
  import opened AiIndex

  /** One committed transaction of some store on its generation, with whatever arguments it was given:
      results of an old embedding call or an old document count may arrive at any time. */
  datatype Op =
    | OpenOp(id: Uuid, dimensions: nat)
    | ReconcileOp(id: Uuid, docs: map<Uuid, Document>, token: string, seqno: int, now: int)
    | WriteOp(id: Uuid, sources: nat, items: seq<Embedded>)
    | FailOp(id: Uuid, taken: seq<(Uuid, string)>, error: string, terminal: bool, now: int)
    | ResetOp(id: Uuid)

  /** The documents a generation was last reconciled with, by input hash; none after a reset. */
  type Seen = Option<map<Uuid, string>>

  datatype State = State(tables: Tables, seen: map<Uuid, Seen>)

  function Hashes(docs: map<Uuid, Document>): map<Uuid, string> { map c | c in docs :: docs[c].hash }

  function Fresh(dimensions: nat): Generation {
    Generation(dimensions, Building, None, 0, map[], map[], map[])
  }

  ghost function Step(s: State, op: Op): State {
    match op
    case OpenOp(id, dimensions) =>
      if id in s.tables then s else State(s.tables[id := Fresh(dimensions)], s.seen[id := None])
    case ReconcileOp(id, docs, token, seqno, now) =>
      if id !in s.tables then s
      else State(Activated(s.tables[id := Reconciled(s.tables[id], docs, token, seqno, now)], id, |docs|),
                 s.seen[id := Some(Hashes(docs))])
    case WriteOp(id, sources, items) =>
      if id !in s.tables || !AllWellFormed(items, s.tables[id].dimensions) then s
      else State(Activated(s.tables[id := WriteAll(s.tables[id], items)], id, sources), s.seen)
    case FailOp(id, taken, error, terminal, now) =>
      if id !in s.tables then s
      else
        var g := s.tables[id];
        State(s.tables[id := g.(jobs := FailAll(g.jobs, taken, error, terminal, now))], s.seen)
    case ResetOp(id) =>
      if id !in s.tables then s else State(s.tables[id := Reset(s.tables[id])], s.seen[id := None])
  }

  ghost function Run(ops: seq<Op>): State {
    if ops == [] then State(map[], map[]) else Step(Run(ops[..|ops| - 1]), ops[|ops| - 1])
  }

  // ----- the invariant

  /** Each reconciled document is either indexed under its hash with no job left, or waits in a job with
      its hash and is not indexed under it; and nothing else is indexed or waits. */
  ghost predicate Agrees(g: Generation, seen: map<Uuid, string>) {
    && (forall c :: c in seen && c in g.jobs ==> g.jobs[c].hash == seen[c] && HashOf(g.rows, c) != Some(seen[c]))
    && (forall c :: c in seen && c !in g.jobs ==> HashOf(g.rows, c) == Some(seen[c]))
    && (forall c :: c in g.jobs ==> c in seen)
    && (forall c :: Indexed(g.rows, c) ==> c in seen)
    && g.sources == |seen| && g.cursor.Some?
  }

  ghost predicate Tracks(g: Generation, seen: Seen) {
    match seen
    case None => g.jobs == map[] && g.rows == map[] && g.cursor == None && g.sources == 0
    case Some(m) => Agrees(g, m)
  }

  ghost predicate Sound(s: State) {
    && s.seen.Keys == s.tables.Keys
    && (forall id :: id in s.tables ==> Consistent(s.tables[id]) && Tracks(s.tables[id], s.seen[id]))
    && OneActive(s.tables)
  }

  // ----- one generation

  lemma WriteOneKeeps(g: Generation, seen: Seen, d: Embedded)
    requires Consistent(g) && Tracks(g, seen) && WellFormed(d, g.dimensions)
    ensures Consistent(WriteOne(g, d)) && Tracks(WriteOne(g, d), seen) && WriteOne(g, d).status == g.status
    ensures WriteOne(g, d).dimensions == g.dimensions
  {
    hide Consistent, Linked, Numbered, DeleteDocument, AddChunks;
    if d.content in g.jobs && g.jobs[d.content].hash == d.hash {
      var cleared := DeleteDocument(g, d.content);
      DeleteKeepsConsistent(g, d.content);
      DeletedOthers(g, d.content);
      AddedChunks(cleared, d.content, d.hash, g.jobs[d.content].seqno, d.chunks);
      var h := WriteOne(g, d);
      JobsDoNotMatter(AddChunks(cleared, d.content, d.hash, g.jobs[d.content].seqno, d.chunks), h.jobs);
      assert Indexed(h.rows, d.content) && HashOf(h.rows, d.content) == Some(d.hash);
      var m := seen.value;
      forall c
        ensures c in m && c in h.jobs ==> h.jobs[c].hash == m[c] && HashOf(h.rows, c) != Some(m[c])
        ensures c in m && c !in h.jobs ==> HashOf(h.rows, c) == Some(m[c])
        ensures Indexed(h.rows, c) ==> c in m
      {
        if c != d.content {
          assert HashOf(h.rows, c) == HashOf(g.rows, c);
        }
      }
    }
  }

  lemma DeletedOthers(g: Generation, c: Uuid)
    ensures var h := DeleteDocument(g, c); h == g.(rows := h.rows, vectors := h.vectors)
  {
  }

  lemma JobsDoNotMatter(g: Generation, jobs: map<Uuid, Job>)
    requires Consistent(g)
    ensures Consistent(g.(jobs := jobs))
  {
    hide Linked, Numbered;
  }

  lemma {:induction false} WriteAllKeeps(g: Generation, seen: Seen, ds: seq<Embedded>)
    requires Consistent(g) && Tracks(g, seen) && AllWellFormed(ds, g.dimensions)
    ensures Consistent(WriteAll(g, ds)) && Tracks(WriteAll(g, ds), seen) && WriteAll(g, ds).status == g.status
    ensures WriteAll(g, ds).dimensions == g.dimensions
  {
    hide Consistent, Tracks, WriteOne;
    if ds != [] {
      WriteAllKeeps(g, seen, ds[..|ds| - 1]);
      assert ds[|ds| - 1] in ds;
      WriteOneKeeps(WriteAll(g, ds[..|ds| - 1]), seen, ds[|ds| - 1]);
    }
  }

  lemma ReconcileTracks(g: Generation, docs: map<Uuid, Document>, token: string, seqno: int, now: int)
    requires Consistent(g)
    ensures Agrees(Reconciled(g, docs, token, seqno, now), Hashes(docs))
  {
    hide Consistent;
    ReconcileKeepsConsistent(g, docs, token, seqno, now);
    assert Hashes(docs).Keys == docs.Keys;
    assert |Hashes(docs)| == |docs|;
  }

  lemma {:induction false} FailKeepsHashes(jobs: map<Uuid, Job>, taken: seq<(Uuid, string)>, error: string, terminal: bool, now: int)
    ensures var after := FailAll(jobs, taken, error, terminal, now);
            after.Keys == jobs.Keys && forall c :: c in jobs ==> after[c].hash == jobs[c].hash
  {
    if taken != [] {
      FailKeepsHashes(jobs, taken[..|taken| - 1], error, terminal, now);
    }
  }

  lemma FailTracks(g: Generation, seen: Seen, taken: seq<(Uuid, string)>, error: string, terminal: bool, now: int)
    requires Consistent(g) && Tracks(g, seen)
    ensures var h := g.(jobs := FailAll(g.jobs, taken, error, terminal, now)); Consistent(h) && Tracks(h, seen)
  {
    hide Consistent, FailAll, HashOf, Indexed;
    FailKeepsHashes(g.jobs, taken, error, terminal, now);
    JobsDoNotMatter(g, FailAll(g.jobs, taken, error, terminal, now));
    if seen.None? {
      assert FailAll(g.jobs, taken, error, terminal, now).Keys == {};
    }
  }

  lemma EmptyConsistent(dimensions: nat, g: Generation)
    ensures Consistent(Fresh(dimensions)) && Consistent(Reset(g))
  {
  }

  // ----- every step, every run

  /** Activation changes statuses only, and leaves at most one active generation. */
  lemma ActivationKeeps(t: Tables, id: Uuid, sources: nat)
    requires id in t && OneActive(t)
    ensures OneActive(Activated(t, id, sources)) && Activated(t, id, sources).Keys == t.Keys
    ensures forall x :: x in t ==> Activated(t, id, sources)[x] == t[x].(status := Activated(t, id, sources)[x].status)
  {
    hide Complete;
  }

  lemma StatusDoesNotMatter(g: Generation, status: Status, seen: Seen)
    requires Consistent(g) && Tracks(g, seen)
    ensures Consistent(g.(status := status)) && Tracks(g.(status := status), seen)
  {
    hide Linked, Numbered;
  }

  lemma Settle(s: State, id: Uuid, g: Generation, seen: Seen, sources: nat)
    requires Sound(s) && id in s.tables && Consistent(g) && Tracks(g, seen) && g.status == s.tables[id].status
    ensures Sound(State(Activated(s.tables[id := g], id, sources), s.seen[id := seen]))
    ensures Sound(State(s.tables[id := g], s.seen[id := seen]))
  {
    hide Consistent, Tracks, Activated;
    var t := s.tables[id := g];
    assert t.Keys == s.tables.Keys && s.seen[id := seen].Keys == s.seen.Keys;
    ActivationKeeps(t, id, sources);
    forall x | x in t
      ensures Consistent(Activated(t, id, sources)[x])
      ensures Tracks(Activated(t, id, sources)[x], s.seen[id := seen][x])
    {
      StatusDoesNotMatter(t[x], Activated(t, id, sources)[x].status, s.seen[id := seen][x]);
    }
  }

  lemma ReconcileStep(s: State, id: Uuid, docs: map<Uuid, Document>, token: string, seqno: int, now: int)
    requires Sound(s) && id in s.tables
    ensures Sound(Step(s, ReconcileOp(id, docs, token, seqno, now)))
  {
    hide Consistent, Tracks, Activated, Reconciled;
    var g := s.tables[id];
    ReconcileKeepsConsistent(g, docs, token, seqno, now);
    ReconcileTracks(g, docs, token, seqno, now);
    SeenTracks(Reconciled(g, docs, token, seqno, now), Hashes(docs));
    SameStatus(g, docs, token, seqno, now);
    Settle(s, id, Reconciled(g, docs, token, seqno, now), Some(Hashes(docs)), |docs|);
  }

  lemma WriteStep(s: State, id: Uuid, sources: nat, items: seq<Embedded>)
    requires Sound(s) && id in s.tables && AllWellFormed(items, s.tables[id].dimensions)
    ensures Sound(Step(s, WriteOp(id, sources, items)))
  {
    hide Consistent, Tracks, Activated, WriteAll, WellFormed;
    WriteAllKeeps(s.tables[id], s.seen[id], items);
    Settle(s, id, WriteAll(s.tables[id], items), s.seen[id], sources);
    assert s.seen[id := s.seen[id]] == s.seen;
  }

  lemma FailStep(s: State, id: Uuid, taken: seq<(Uuid, string)>, error: string, terminal: bool, now: int)
    requires Sound(s) && id in s.tables
    ensures Sound(Step(s, FailOp(id, taken, error, terminal, now)))
  {
    hide Consistent, Tracks, Activated, FailAll;
    var g := s.tables[id];
    FailTracks(g, s.seen[id], taken, error, terminal, now);
    Settle(s, id, g.(jobs := FailAll(g.jobs, taken, error, terminal, now)), s.seen[id], 0);
    assert s.seen[id := s.seen[id]] == s.seen;
  }

  lemma ClearStep(s: State, op: Op)
    requires Sound(s) && (op.OpenOp? || op.ResetOp?)
    ensures Sound(Step(s, op))
  {
    hide Consistent, Tracks;
    var g := if op.OpenOp? then Fresh(op.dimensions) else if op.id in s.tables then Reset(s.tables[op.id]) else Fresh(0);
    EmptyConsistent(g.dimensions, g);
    EmptyTracks(g.dimensions, g);
    if op.id in s.tables {
      EmptyConsistent(0, s.tables[op.id]);
      EmptyTracks(0, s.tables[op.id]);
    }
    assert Step(s, op).tables.Keys == Step(s, op).seen.Keys;
  }

  lemma StepKeeps(s: State, op: Op)
    requires Sound(s)
    ensures Sound(Step(s, op))
  {
    hide Sound, Activated, Reconciled, WriteAll, FailAll, WellFormed;
    match op
    case OpenOp(_, _) => ClearStep(s, op);
    case ReconcileOp(id, docs, token, seqno, now) =>
      if id in s.tables {
        ReconcileStep(s, id, docs, token, seqno, now);
      }
    case WriteOp(id, sources, items) =>
      if id in s.tables && AllWellFormed(items, s.tables[id].dimensions) {
        WriteStep(s, id, sources, items);
      }
    case FailOp(id, taken, error, terminal, now) =>
      if id in s.tables {
        FailStep(s, id, taken, error, terminal, now);
      }
    case ResetOp(_) => ClearStep(s, op);
  }

  lemma EmptyTracks(dimensions: nat, g: Generation)
    ensures Tracks(Fresh(dimensions), None) && Tracks(Reset(g), None)
  {
  }

  lemma SeenTracks(g: Generation, m: map<Uuid, string>)
    requires Agrees(g, m)
    ensures Tracks(g, Some(m))
  {
  }

  lemma SameStatus(g: Generation, docs: map<Uuid, Document>, token: string, seqno: int, now: int)
    ensures Reconciled(g, docs, token, seqno, now).status == g.status
  {
  }

  /** Whatever the interleaving: vectors and mapping rows are the same duplicate-free set, chunks are
      numbered without gaps under one hash, the index agrees with the last reconcile, and at most one
      generation is active. */
  lemma {:induction false} RunsAreSound(ops: seq<Op>)
    ensures Sound(Run(ops))
  {
    hide Sound, Step;
    if ops == [] {
      NothingIsSound();
    } else {
      RunsAreSound(ops[..|ops| - 1]);
      StepKeeps(Run(ops[..|ops| - 1]), ops[|ops| - 1]);
    }
  }

  lemma NothingIsSound()
    ensures Sound(State(map[], map[]))
  {
  }

  // ----- what activation means

  /** The index holds exactly these documents, each under this hash, and no work is left. */
  ghost predicate Matches(g: Generation, seen: map<Uuid, string>) {
    && g.jobs == map[] && Contents(g.rows) == seen.Keys
    && forall c :: c in seen ==> HashOf(g.rows, c) == Some(seen[c])
  }

  /** The number of documents a generation was last reconciled with. */
  function Counted(seen: Seen): nat {
    match seen
    case Some(m) => |m|
    case None => 0
  }

  /** With no job left the index holds exactly the reconciled documents, and as many. */
  lemma SettledMatches(g: Generation, seen: Seen)
    requires Consistent(g) && Tracks(g, seen) && g.jobs == map[]
    ensures |Contents(g.rows)| == Counted(seen)
    ensures match seen case Some(m) => Matches(g, m) case None => g.rows == map[]
  {
    hide Linked;
    if seen.Some? {
      forall c
        ensures c in Contents(g.rows) <==> c in seen.value
      {
        ContentsAreIndexed(g.rows, c);
      }
      assert Contents(g.rows) == seen.value.Keys && |seen.value.Keys| == |seen.value|;
    } else {
      assert Contents(g.rows) == {};
    }
  }

  lemma CompleteExactly(g: Generation, seen: Seen, sources: nat)
    requires Consistent(g) && Tracks(g, seen)
    ensures Complete(g, sources) <==> g.jobs == map[] && sources == Counted(seen)
    ensures Complete(g, sources) ==> match seen case Some(m) => Matches(g, m) case None => g.rows == map[]
  {
    hide Consistent, Tracks, Matches;
    if g.jobs == map[] {
      SettledMatches(g, seen);
    }
  }

  /** A generation becomes active only when its index equals the documents of its last reconcile. The one
      other case is a write that lands after a reset: it activates the emptied index only if its caller
      had counted no documents. */
  lemma ActivationIsExact(s: State, op: Op, next: State, id: Uuid)
    requires Sound(s) && next == Step(s, op) && id in s.tables && id in next.tables && id in next.seen
    requires !s.tables[id].status.Active? && next.tables[id].status.Active?
    ensures match next.seen[id]
      case Some(m) => Matches(next.tables[id], m)
      case None => op.WriteOp? && op.id == id && op.sources == 0 && next.tables[id].rows == map[] && next.tables[id].jobs == map[]
  {
    hide Consistent, Tracks, Reconciled, WriteAll, FailAll, WellFormed;
    StepKeeps(s, op);
    var g, seen := next.tables[id], next.seen[id];
    match op
    case ReconcileOp(x, docs, token, seqno, now) =>
      SameStatus(s.tables[x], docs, token, seqno, now);
      ActivatedOnly(s.tables[x := Reconciled(s.tables[x], docs, token, seqno, now)], x, |docs|, id);
      CompleteExactly(g, seen, |docs|);
    case WriteOp(x, sources, items) =>
      WriteAllKeeps(s.tables[x], s.seen[x], items);
      ActivatedOnly(s.tables[x := WriteAll(s.tables[x], items)], x, sources, id);
      CompleteExactly(g, seen, sources);
      TracksNone(g, seen);
    case _ =>
  }

  lemma TracksNone(g: Generation, seen: Seen)
    requires Tracks(g, seen)
    ensures seen.None? ==> g.jobs == map[] && g.rows == map[]
  {
  }

  /** Only the generation that is complete becomes active. */
  lemma ActivatedOnly(t: Tables, id: Uuid, sources: nat, x: Uuid)
    requires id in t && x in t && Activated(t, id, sources)[x].status.Active? && !t[x].status.Active?
    ensures x == id && Complete(Activated(t, id, sources)[id], sources)
  {
  }

  /** Some result was computed for this very input. */
  predicate Answered(ds: seq<Embedded>, c: Uuid, hash: string) { exists d :: d in ds && d.content == c && d.hash == hash }

  /** A write settles exactly the jobs that some result answers at their current hash. */
  lemma {:induction false} JobsAfterWrites(g: Generation, ds: seq<Embedded>)
    ensures forall c :: c in WriteAll(g, ds).jobs <==> c in g.jobs && !Answered(ds, c, g.jobs[c].hash)
    ensures forall c :: c in WriteAll(g, ds).jobs ==> WriteAll(g, ds).jobs[c] == g.jobs[c]
  {
    hide DeleteDocument, AddChunks;
    if ds != [] {
      var front, last := ds[..|ds| - 1], ds[|ds| - 1];
      JobsAfterWrites(g, front);
      assert ds == front + [last];
      forall c, hash
        ensures Answered(ds, c, hash) <==> Answered(front, c, hash) || (last.content == c && last.hash == hash)
      {
        assert forall d :: d in ds <==> d in front || d == last;
      }
    }
  }

  /** What activates a generation: a reconcile that finds every document indexed under its hash, or a write that
      answers every job and whose caller counted as many documents as were last reconciled, none after a reset. */
  ghost predicate Activates(s: State, op: Op, id: Uuid)
    requires id in s.tables && id in s.seen
  {
    match op
    case ReconcileOp(x, docs, _, _, _) =>
      x == id && forall c :: c in docs ==> HashOf(s.tables[id].rows, c) == Some(docs[c].hash)
    case WriteOp(x, sources, items) =>
      var g := s.tables[id];
      x == id && AllWellFormed(items, g.dimensions) && sources == Counted(s.seen[id])
      && forall c :: c in g.jobs ==> Answered(items, c, g.jobs[c].hash)
    case _ => false
  }

  /** A generation that is not active becomes so exactly then. */
  lemma ActivatesExactly(s: State, op: Op, id: Uuid)
    requires Sound(s) && id in s.tables && !s.tables[id].status.Active?
    ensures id in Step(s, op).tables && (Step(s, op).tables[id].status.Active? <==> Activates(s, op, id))
  {
    hide Consistent, Tracks, Reconciled, WriteAll, FailAll, WellFormed, HashOf, Answered, Complete, Contents;
    match op
    case ReconcileOp(x, docs, token, seqno, now) =>
      if x in s.tables {
        SameStatus(s.tables[x], docs, token, seqno, now);
        ReconcileKeepsConsistent(s.tables[x], docs, token, seqno, now);
        ReconcileTracks(s.tables[x], docs, token, seqno, now);
        ReconciledComplete(s.tables[x], docs, token, seqno, now);
      }
    case WriteOp(x, sources, items) =>
      if x in s.tables && AllWellFormed(items, s.tables[x].dimensions) {
        WriteAllKeeps(s.tables[x], s.seen[x], items);
        CompleteExactly(WriteAll(s.tables[x], items), s.seen[x], sources);
        JobsAfterWrites(s.tables[x], items);
      }
    case _ =>
  }

  lemma ReconciledComplete(g: Generation, docs: map<Uuid, Document>, token: string, seqno: int, now: int)
    requires Consistent(g)
    ensures Complete(Reconciled(g, docs, token, seqno, now), |docs|) <==>
              forall c :: c in docs ==> HashOf(g.rows, c) == Some(docs[c].hash)
  {
    hide Consistent, HashOf, Complete;
    var h := Reconciled(g, docs, token, seqno, now);
    ReconcileKeepsConsistent(g, docs, token, seqno, now);
    ReconcileTracks(g, docs, token, seqno, now);
    CompleteExactly(h, Some(Hashes(docs)), |docs|);
    assert Hashes(docs).Keys == docs.Keys && |Hashes(docs)| == |docs|;
  }

  /** After a reset a write activates the emptied generation exactly when its caller had counted no documents. */
  lemma ResetActivatesExactly(s: State, op: Op, id: Uuid)
    requires Sound(s) && id in s.tables && s.seen[id] == None && !s.tables[id].status.Active? && op.WriteOp? && op.id == id
    ensures id in Step(s, op).tables
    ensures Step(s, op).tables[id].status.Active? <==> op.sources == 0 && AllWellFormed(op.items, s.tables[id].dimensions)
  {
    hide Consistent, Step, WellFormed;
    ActivatesExactly(s, op, id);
    TracksNone(s.tables[id], s.seen[id]);
  }

  /** It does happen: an index of a reconciled document is reset, and a write that counted none makes it active. */
  lemma ResetRace(id: Uuid, dimensions: nat, docs: map<Uuid, Document>, token: string, seqno: int, now: int)
    ensures var s := Run([OpenOp(id, dimensions), ReconcileOp(id, docs, token, seqno, now), ResetOp(id), WriteOp(id, 0, [])]);
            id in s.tables && s.tables[id].status.Active? && id in s.seen && s.seen[id] == None
  {
    hide Reconciled, Complete, Sound, Step;
    var first, second := OpenOp(id, dimensions), ReconcileOp(id, docs, token, seqno, now);
    var ops, late := [first, second, ResetOp(id)], WriteOp(id, 0, []);
    assert [first][..0] == [] && [first, second][..1] == [first] && ops[..2] == [first, second];
    var s1 := Step(State(map[], map[]), first);
    var s2 := Step(s1, second);
    assert id in s1.tables && id in s2.tables by { StepsKeepId(s1, id, first, second); }
    assert Run([]) == State(map[], map[]) && Run([first]) == s1 && Run([first, second]) == s2 && Run(ops) == Step(s2, ResetOp(id));
    RunsAreSound(ops);
    AfterReset(s2, id);
    ResetActivatesExactly(Run(ops), late, id);
    assert (ops + [late])[..3] == ops && Run(ops + [late]) == Step(Run(ops), late);
    assert ops + [late] == [first, second, ResetOp(id), late];
    WriteKeepsSeen(Run(ops), late);
  }

  lemma StepsKeepId(s1: State, id: Uuid, first: Op, second: Op)
    requires first.OpenOp? && first.id == id && second.ReconcileOp? && second.id == id && s1 == Step(State(map[], map[]), first)
    ensures id in s1.tables && id in Step(s1, second).tables
  {
    hide Reconciled, Complete;
  }

  lemma AfterReset(s: State, id: Uuid)
    requires id in s.tables
    ensures var r := Step(s, ResetOp(id)); id in r.tables && id in r.seen && r.seen[id] == None && !r.tables[id].status.Active?
  {
  }

  lemma WriteKeepsSeen(s: State, op: Op)
    requires op.WriteOp?
    ensures Step(s, op).seen == s.seen
  {
    hide WriteAll, Activated, WellFormed;
  }

  // ----- results that arrive late

  /** A result computed for an input the document no longer has changes nothing. */
  lemma StaleResultIgnored(g: Generation, seen: map<Uuid, string>, d: Embedded)
    requires Agrees(g, seen) && (d.content !in seen || d.hash != seen[d.content])
    ensures WriteOne(g, d) == g
  {
    hide HashOf, Indexed;
  }

  /** Does the operation reconcile this generation, or write to it for a caller that saw no documents? */
  predicate Revives(op: Op, id: Uuid) {
    (op.ReconcileOp? && op.id == id) || (op.WriteOp? && op.id == id && op.sources == 0)
  }

  ghost function From(s: State, ops: seq<Op>): State {
    if ops == [] then s else Step(From(s, ops[..|ops| - 1]), ops[|ops| - 1])
  }

  /** After a reset the index stays empty and inactive until the next reconcile, whatever embedding calls
      that were in flight still write. */
  lemma {:induction false} ResetHolds(s: State, ops: seq<Op>, id: Uuid)
    requires Sound(s) && id in s.tables && s.seen[id] == None && !s.tables[id].status.Active?
    requires forall op :: op in ops ==> !Revives(op, id)
    ensures Sound(From(s, ops)) && id in From(s, ops).tables && From(s, ops).seen[id] == None
    ensures !From(s, ops).tables[id].status.Active? && From(s, ops).tables[id].rows == map[]
  {
    hide Sound, Step, Tracks;
    if ops == [] {
      SeenNothing(s, id);
    } else {
      var before := From(s, ops[..|ops| - 1]);
      var op := ops[|ops| - 1];
      ResetHolds(s, ops[..|ops| - 1], id);
      assert op in ops;
      StepKeeps(before, op);
      StillReset(before, op, id);
      SeenNothing(Step(before, op), id);
    }
  }

  lemma SeenNothing(s: State, id: Uuid)
    requires Sound(s) && id in s.tables && s.seen[id] == None
    ensures s.tables[id].rows == map[]
  {
    hide Consistent;
  }

  lemma StillReset(s: State, op: Op, id: Uuid)
    requires Sound(s) && id in s.tables && s.seen[id] == None && !s.tables[id].status.Active? && !Revives(op, id)
    ensures id in Step(s, op).tables && id in Step(s, op).seen && Step(s, op).seen[id] == None
    ensures !Step(s, op).tables[id].status.Active?
  {
    hide Consistent, Tracks, Reconciled, WriteAll, FailAll, Activated;
    Persist(s, op, id);
    if Step(s, op).tables[id].status.Active? {
      ActivationIsExact(s, op, Step(s, op), id);
      assert false;
    }
  }

  lemma Persist(s: State, op: Op, id: Uuid)
    requires Sound(s) && id in s.tables && s.seen[id] == None && !Revives(op, id)
    ensures id in Step(s, op).tables && id in Step(s, op).seen && Step(s, op).seen[id] == None
  {
    hide Consistent, Tracks, Reconciled, WriteAll, FailAll;
  }
}
