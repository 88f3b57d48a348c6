/** The cursor that lets `reconcile` of `crates/notes-ai/src/store.rs` skip a full scan: edits, and any number
    of reconciles in flight, interleaved with every other index transaction. */
module CursorSkip {
  import opened Results
  import opened AiIndex
  import opened AiRuns

  /** The notes at one moment: the source token and what a full scan would find. */
  datatype Notes = Notes(token: string, docs: map<Uuid, Document>)

  /** A reconcile under way: it has read the token, and later the documents. */
  datatype Flight = Asked(token: string) | Loaded(token: string, docs: map<Uuid, Document>)

  /** Every version the notes have had, the reconciles under way, and the index. */
  datatype World = World(history: seq<Notes>, flights: map<nat, Flight>, index: State)

  datatype Event =
    | Edit(notes: Notes)
    | Ask(r: nat)
    | Skip(r: nat)
    | Load(r: nat)
    | Commit(r: nat, seqno: int, now: int)
    | Other(op: Op)

  /** An edit moves the token to one never used before. */
  predicate Can(w: World, id: Uuid, e: Event)
    requires w.history != [] && id in w.index.tables
  {
    match e
    case Edit(notes) => forall i :: 0 <= i < |w.history| ==> w.history[i].token != notes.token
    case Ask(r) => r !in w.flights
    case Skip(r) => r in w.flights && w.flights[r].Asked? && w.index.tables[id].cursor == Some(w.flights[r].token)
    case Load(r) => r in w.flights && w.flights[r].Asked?
    case Commit(r, _, _) => r in w.flights && w.flights[r].Loaded?
    case Other(op) => !(op.ReconcileOp? && op.id == id)
  }

  ghost function Next(w: World, id: Uuid, e: Event): World
    requires w.history != [] && id in w.index.tables && Can(w, id, e)
  {
    var current := w.history[|w.history| - 1];
    match e
    case Edit(notes) => w.(history := w.history + [notes])
    case Ask(r) => w.(flights := w.flights[r := Asked(current.token)])
    case Skip(r) => w.(flights := w.flights - {r})
    case Load(r) => w.(flights := w.flights[r := Loaded(w.flights[r].token, current.docs)])
    case Commit(r, seqno, now) =>
      var f := w.flights[r];
      World(w.history, w.flights - {r}, Step(w.index, ReconcileOp(id, f.docs, f.token, seqno, now)))
    case Other(op) => w.(index := Step(w.index, op))
  }

  // ----- what always holds

  /** Version `i` carried this token. */
  predicate Token(history: seq<Notes>, i: nat, token: string) { i < |history| && history[i].token == token }

  /** The documents are those of version `j`. */
  predicate Found(history: seq<Notes>, j: nat, hashes: map<Uuid, string>) {
    j < |history| && Hashes(history[j].docs) == hashes
  }

  /** The token was read first, the documents at the same or a later version. */
  ghost predicate ReadInOrder(history: seq<Notes>, token: string, hashes: map<Uuid, string>) {
    exists i, j :: i <= j && Token(history, i, token) && Found(history, j, hashes)
  }

  ghost predicate Fits(history: seq<Notes>, f: Flight) {
    match f
    case Asked(token) => exists i :: Token(history, i, token)
    case Loaded(token, docs) => ReadInOrder(history, token, Hashes(docs))
  }

  ghost predicate Recorded(history: seq<Notes>, s: State, id: Uuid)
    requires id in s.tables && id in s.seen
  {
    s.tables[id].cursor.Some? ==>
      s.seen[id].Some? && ReadInOrder(history, s.tables[id].cursor.value, s.seen[id].value)
  }

  ghost predicate Faithful(w: World, id: Uuid) {
    && w.history != [] && id in w.index.tables && Sound(w.index)
    && (forall i, j :: 0 <= i < j < |w.history| ==> w.history[i].token != w.history[j].token)
    && (forall r :: r in w.flights ==> Fits(w.history, w.flights[r]))
    && Recorded(w.history, w.index, id)
  }

  lemma LongerHistory(history: seq<Notes>, notes: Notes, token: string, hashes: map<Uuid, string>)
    requires ReadInOrder(history, token, hashes)
    ensures ReadInOrder(history + [notes], token, hashes)
  {
    var i, j :| i <= j && Token(history, i, token) && Found(history, j, hashes);
    assert Token(history + [notes], i, token) && Found(history + [notes], j, hashes);
  }

  lemma LongerFits(history: seq<Notes>, notes: Notes, f: Flight)
    requires Fits(history, f)
    ensures Fits(history + [notes], f)
  {
    match f
    case Asked(token) =>
      var i :| Token(history, i, token);
      assert Token(history + [notes], i, token);
    case Loaded(token, docs) => LongerHistory(history, notes, token, Hashes(docs));
  }

  /** No other transaction moves the cursor of this generation, except that a reset clears it. */
  lemma CursorStays(s: State, op: Op, id: Uuid)
    requires Sound(s) && id in s.tables && !(op.ReconcileOp? && op.id == id)
    ensures id in Step(s, op).tables && id in Step(s, op).seen
    ensures Step(s, op).tables[id].cursor == None
            || (Step(s, op).tables[id].cursor == s.tables[id].cursor && Step(s, op).seen[id] == s.seen[id])
  {
    hide Consistent, Tracks, FailAll, Complete, WriteAll, Reconciled, AllWellFormed;
    if op.WriteOp? && op.id in s.tables {
      WritesKeepCursor(s.tables[op.id], op.items);
    }
  }

  lemma {:induction false} AddsKeepCursor(g: Generation, c: Uuid, hash: string, seqno: int, chunks: seq<Chunk>)
    ensures AddChunks(g, c, hash, seqno, chunks).cursor == g.cursor
  {
    if chunks != [] {
      AddsKeepCursor(g, c, hash, seqno, chunks[..|chunks| - 1]);
    }
  }

  lemma {:induction false} WritesKeepCursor(g: Generation, items: seq<Embedded>)
    ensures WriteAll(g, items).cursor == g.cursor
  {
    if items != [] {
      var before, d := WriteAll(g, items[..|items| - 1]), items[|items| - 1];
      WritesKeepCursor(g, items[..|items| - 1]);
      if d.content in before.jobs {
        AddsKeepCursor(DeleteDocument(before, d.content), d.content, d.hash, before.jobs[d.content].seqno, d.chunks);
      }
    }
  }

  /** A commit records exactly the token and the documents it carried. */
  lemma CommitRecords(s: State, id: Uuid, docs: map<Uuid, Document>, token: string, seqno: int, now: int)
    requires Sound(s) && id in s.tables
    ensures var t := Step(s, ReconcileOp(id, docs, token, seqno, now));
      id in t.tables && id in t.seen && t.tables[id].cursor == Some(token) && t.seen[id] == Some(Hashes(docs))
  {
    hide Consistent, Tracks, Complete, ReconciledJobs, ReconciledRows, ReconciledVectors;
  }

  lemma IndexStays(w: World, id: Uuid, e: Event)
    requires Faithful(w, id) && Can(w, id, e)
    ensures Sound(Next(w, id, e).index) && id in Next(w, id, e).index.tables && id in Next(w, id, e).index.seen
  {
    hide Step, Consistent, Tracks, OneActive;
    match e
    case Commit(r, seqno, now) =>
      StepKeeps(w.index, ReconcileOp(id, w.flights[r].docs, w.flights[r].token, seqno, now));
      CommitRecords(w.index, id, w.flights[r].docs, w.flights[r].token, seqno, now);
    case Other(op) =>
      StepKeeps(w.index, op);
      CursorStays(w.index, op, id);
    case _ =>
  }

  lemma NextIsFaithful(w: World, id: Uuid, e: Event)
    requires Faithful(w, id) && Can(w, id, e)
    ensures Faithful(Next(w, id, e), id)
  {
    hide Sound, Step, ReadInOrder, Token;
    IndexStays(w, id, e);
    var n := Next(w, id, e);
    match e
    case Edit(notes) =>
      forall r | r in w.flights
        ensures Fits(n.history, w.flights[r])
      {
        LongerFits(w.history, notes, w.flights[r]);
      }
      if w.index.tables[id].cursor.Some? {
        LongerHistory(w.history, notes, w.index.tables[id].cursor.value, w.index.seen[id].value);
      }
    case Ask(r) =>
      Current(w.history);
    case Skip(r) =>
    case Load(r) =>
      LoadsInOrder(w.history, w.flights[r].token);
    case Commit(r, seqno, now) =>
      CommitRecords(w.index, id, w.flights[r].docs, w.flights[r].token, seqno, now);
      assert Fits(w.history, w.flights[r]);
    case Other(op) =>
      CursorStays(w.index, op, id);
  }

  lemma Current(history: seq<Notes>)
    requires history != []
    ensures Fits(history, Asked(history[|history| - 1].token))
  {
    assert Token(history, |history| - 1, history[|history| - 1].token);
  }

  lemma LoadsInOrder(history: seq<Notes>, token: string)
    requires history != [] && Fits(history, Asked(token))
    ensures ReadInOrder(history, token, Hashes(history[|history| - 1].docs))
  {
    var i :| Token(history, i, token);
    assert Found(history, |history| - 1, Hashes(history[|history| - 1].docs));
  }

  // ----- the skip

  /** When a reconcile skips, the index agrees with what a full scan would have found at some moment
      since that reconcile read its token; and if nothing was edited since, with what it would find now. */
  lemma SkipIsFresh(w: World, id: Uuid, r: nat) returns (asked: nat, found: nat)
    requires Faithful(w, id) && Can(w, id, Skip(r))
    ensures Token(w.history, asked, w.flights[r].token) && asked <= found < |w.history|
    ensures id in w.index.seen && w.index.seen[id] == Some(Hashes(w.history[found].docs))
    ensures Agrees(w.index.tables[id], Hashes(w.history[found].docs))
    ensures w.flights[r].token == w.history[|w.history| - 1].token ==> found == |w.history| - 1
  {
    hide Agrees, Consistent, OneActive;
    var token := w.flights[r].token;
    asked, found :| asked <= found && Token(w.history, asked, token) && Found(w.history, found, w.index.seen[id].value);
    assert Tracks(w.index.tables[id], w.index.seen[id]);
  }

  /** The count a skip returns is the number of documents in that version. */
  lemma SkipCounts(w: World, id: Uuid, r: nat, found: nat)
    requires Faithful(w, id) && Can(w, id, Skip(r)) && found < |w.history|
    requires Agrees(w.index.tables[id], Hashes(w.history[found].docs))
    ensures w.index.tables[id].sources == |w.history[found].docs|
  {
    assert Hashes(w.history[found].docs).Keys == w.history[found].docs.Keys;
  }

  /** The notes have been edited, with a new token each time. */
  ghost predicate EditedTo(w: World, id: Uuid, edits: seq<Notes>, n: World)
    decreases |edits|
  {
    if edits == [] then n == w
    else w.history != [] && id in w.index.tables && Can(w, id, Edit(edits[0])) && EditedTo(Next(w, id, Edit(edits[0])), id, edits[1..], n)
  }

  lemma {:induction false} EditsAppend(w: World, id: Uuid, edits: seq<Notes>, n: World)
    requires Faithful(w, id) && EditedTo(w, id, edits, n)
    ensures Faithful(n, id) && n == w.(history := w.history + edits)
    decreases |edits|
  {
    hide Faithful, Can;
    if edits == [] {
      assert w.history + [] == w.history;
    } else {
      NextIsFaithful(w, id, Edit(edits[0]));
      EditsAppend(Next(w, id, Edit(edits[0])), id, edits[1..], n);
      assert w.history + [edits[0]] + edits[1..] == w.history + edits;
    }
  }

  /** A scan from start to end records the token and the documents of the notes. */
  lemma ScanRecords(w: World, id: Uuid, r: nat, seqno: int, now: int) returns (n: World)
    requires Faithful(w, id) && r !in w.flights
    ensures Can(w, id, Ask(r)) && Can(Next(w, id, Ask(r)), id, Load(r))
    ensures var loaded := Next(Next(w, id, Ask(r)), id, Load(r));
            Can(loaded, id, Commit(r, seqno, now)) && n == Next(loaded, id, Commit(r, seqno, now))
    ensures Faithful(n, id) && n.history == w.history && n.flights == w.flights
    ensures n.index.tables[id].cursor == Some(w.history[|w.history| - 1].token)
    ensures id in n.index.seen && n.index.seen[id] == Some(Hashes(w.history[|w.history| - 1].docs))
  {
    hide Sound, Step, Hashes, Recorded, Fits;
    NextIsFaithful(w, id, Ask(r));
    var asked := Next(w, id, Ask(r));
    NextIsFaithful(asked, id, Load(r));
    var loaded := Next(asked, id, Load(r));
    NextIsFaithful(loaded, id, Commit(r, seqno, now));
    n := Next(loaded, id, Commit(r, seqno, now));
    CommitRecords(w.index, id, loaded.flights[r].docs, loaded.flights[r].token, seqno, now);
  }

  /** After such a scan the next reconcile skips exactly when nothing has been edited. */
  lemma SkipsExactly(w: World, id: Uuid, r: nat, edits: seq<Notes>, n: World)
    requires Faithful(w, id) && r !in w.flights && w.index.tables[id].cursor == Some(w.history[|w.history| - 1].token)
    requires EditedTo(w, id, edits, n)
    ensures Faithful(n, id) && Can(n, id, Ask(r)) && (Can(Next(n, id, Ask(r)), id, Skip(r)) <==> edits == [])
  {
    hide Sound, Fits, Recorded;
    EditsAppend(w, id, edits, n);
    if edits != [] {
      assert n.history[|w.history| - 1] == w.history[|w.history| - 1];
    } else {
      assert w.history + [] == w.history;
    }
  }

  // ----- runs

  ghost predicate Start(w: World, id: Uuid) {
    |w.history| == 1 && w.flights == map[] && Sound(w.index) && id in w.index.tables && w.index.tables[id].cursor == None
  }

  ghost predicate Steps(id: Uuid, w: World, e: Event, n: World) {
    w.history != [] && id in w.index.tables && Can(w, id, e) && n == Next(w, id, e)
  }

  ghost predicate Trace(id: Uuid, ws: seq<World>, es: seq<Event>) {
    |ws| == |es| + 1 && Start(ws[0], id) && forall i :: 0 <= i < |es| ==> Steps(id, ws[i], es[i], ws[i + 1])
  }

  /** Every world of every run is faithful, so every skip in it is fresh. */
  lemma {:induction false} TracesAreFaithful(id: Uuid, ws: seq<World>, es: seq<Event>, i: nat)
    requires Trace(id, ws, es) && i < |ws|
    ensures Faithful(ws[i], id)
  {
    hide Faithful, Next, Can, Start, Steps;
    if i == 0 {
      StartIsFaithful(ws[0], id);
    } else {
      TracesAreFaithful(id, ws, es, i - 1);
      StepIsFaithful(id, ws[i - 1], es[i - 1], ws[i]);
    }
  }

  lemma StartIsFaithful(w: World, id: Uuid)
    requires Start(w, id)
    ensures Faithful(w, id)
  {
    hide Consistent, Tracks, OneActive;
  }

  lemma StepIsFaithful(id: Uuid, w: World, e: Event, n: World)
    requires Faithful(w, id) && Steps(id, w, e, n)
    ensures Faithful(n, id)
  {
    hide Faithful, Next, Can;
    NextIsFaithful(w, id, e);
  }
}
