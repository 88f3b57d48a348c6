/** `apply_extraction` of `crates/notes-ai/src/extract.rs` and the graph transactions of
    `crates/notes-ai/src/store.rs`, as they run. */
module ExtractionStore {
  import opened Bytes
  import opened Results
  import opened ExtractionGraph

  // ----- adopt_existing_entities

  /** The stored identifier of a name, by the unique index. */
  method LookupName(entities: map<Uuid, Entity>, key: Text) returns (r: Option<Uuid>)
    requires UniqueNames(entities)
    ensures r == Owner(entities, key)
  {
    var todo := entities.Keys;
    while todo != {}
      invariant todo <= entities.Keys
      invariant forall u :: u in entities && u !in todo ==> entities[u].key != key
    {
      var u :| u in todo;
      if entities[u].key == key {
        OwnerIs(entities, u);
        return Some(u);
      }
      todo := todo - {u};
    }
    r := None;
  }

  /** What the remapping holds: each record whose name is stored under another identifier. */
  ghost predicate Maps(n: Naming, g: Graph, records: seq<Extracted>, remap: map<Uuid, Uuid>) {
    && (forall r :: r in records && r.uuid !in remap ==> Canon(n, g, r.key) == r.uuid)
    && (forall u :: u in remap ==> exists r :: r in records && r.uuid == u && remap[u] == Canon(n, g, r.key))
  }

  method Adopt(n: Naming, g: Graph, records: seq<Extracted>) returns (adopted: seq<Extracted>, remap: map<Uuid, Uuid>)
    requires CollisionFree(n) && UniqueNames(g.entities) && (forall r :: r in records ==> r.uuid == n.derive(r.key))
    ensures Adopted(n, g, records, adopted) && Maps(n, g, records, remap)
  {
    hide Owner, UniqueNames;
    adopted, remap := [], map[];
    for i := 0 to |records|
      invariant Adopted(n, g, records[..i], adopted) && Maps(n, g, records[..i], remap)
    {
      var r := records[i];
      assert r in records;
      var stored := LookupName(g.entities, r.key);
      var uuid := r.uuid;
      ghost var before := remap;
      if stored.Some? && stored.value != r.uuid {
        remap := remap[r.uuid := stored.value];
        uuid := stored.value;
      }
      adopted := adopted + [r.(uuid := uuid)];
      assert records[..i + 1] == records[..i] + [r];
      MapsOneMore(n, g, records[..i], r, before, remap, uuid);
    }
    assert records[..|records|] == records;
  }

  lemma MapsOneMore(n: Naming, g: Graph, done: seq<Extracted>, r: Extracted, before: map<Uuid, Uuid>, remap: map<Uuid, Uuid>, uuid: Uuid)
    requires CollisionFree(n) && (forall x :: x in done + [r] ==> x.uuid == n.derive(x.key))
    requires Maps(n, g, done, before) && uuid == Canon(n, g, r.key)
    requires remap == if uuid != r.uuid then before[r.uuid := uuid] else before
    ensures Maps(n, g, done + [r], remap)
  {
    hide Canon;
    var all := done + [r];
    assert r in all && forall x :: x in all <==> x in done || x == r;
    forall u | u in remap
      ensures exists x :: x in all && x.uuid == u && remap[u] == Canon(n, g, x.key)
    {
      if u in before && remap[u] == before[u] {
        var x :| x in done && x.uuid == u && before[u] == Canon(n, g, x.key);
        assert x in all;
      }
    }
  }

  lemma RemapIs(n: Naming, g: Graph, records: seq<Extracted>, remap: map<Uuid, Uuid>, u: Uuid)
    requires CollisionFree(n) && (forall r :: r in records ==> r.uuid == n.derive(r.key))
    requires Maps(n, g, records, remap)
    ensures Remap(n, g, records, u) == if u in remap then remap[u] else u
  {
    hide Canon, CollisionFree, Remap;
    if u in remap {
      var r :| r in records && r.uuid == u && remap[u] == Canon(n, g, r.key);
      RemapOf(n, g, records, r);
    } else if r :| r in records && r.uuid == u {
      RemapOf(n, g, records, r);
    } else {
      NotARecord(n, g, records, u);
    }
  }

  lemma NotARecord(n: Naming, g: Graph, records: seq<Extracted>, u: Uuid)
    requires forall r :: r in records ==> r.uuid != u
    ensures Remap(n, g, records, u) == u
  {
  }

  method MoveEdges(n: Naming, ghost g: Graph, ghost records: seq<Extracted>, edges: seq<Edge>, remap: map<Uuid, Uuid>)
    returns (moved: seq<Edge>)
    requires CollisionFree(n) && (forall r :: r in records ==> r.uuid == n.derive(r.key))
    requires Maps(n, g, records, remap)
    ensures AllMoved(n, g, records, edges, moved)
  {
    hide Remap, CollisionFree, Maps;
    moved := [];
    for i := 0 to |edges|
      invariant AllMoved(n, g, records, edges[..i], moved)
    {
      var e := edges[i];
      RemapIs(n, g, records, remap, e.src);
      RemapIs(n, g, records, remap, e.dst);
      var src := if e.src in remap then remap[e.src] else e.src;
      var dst := if e.dst in remap then remap[e.dst] else e.dst;
      moved := moved + [Edge(src, dst, e.kind)];
    }
  }

  // ----- the statements of finish_extraction

  /** The upserts; the unique name index is violated by none of them. */
  method UpsertEntities(n: Naming, ghost g: Graph, ghost records: seq<Extracted>, entities: map<Uuid, Entity>,
                        adopted: seq<Extracted>, now: int) returns (after: map<Uuid, Entity>)
    requires entities == g.entities && UniqueNames(g.entities) && Adopted(n, g, records, adopted)
    ensures after == UpsertAll(entities, adopted, now)
  {
    hide Canon, Upserted, UniqueNames;
    after := entities;
    PlacedFirst(n, g);
    for i := 0 to |adopted|
      invariant after == UpsertAll(entities, adopted[..i], now) && Placed(n, g, after)
    {
      UpsertPlaced(n, g, after, adopted[i], now);
      assert forall u :: u in after && u != adopted[i].uuid ==> after[u].key != adopted[i].key;
      assert adopted[..i + 1][..i] == adopted[..i];
      after := after[adopted[i].uuid := Upserted(after, adopted[i], now)];
    }
    assert adopted[..|adopted|] == adopted;
  }

  /** The edge insertions; none repeats a primary key. */
  method InsertEdges(n: Naming, ghost g: Graph, ghost records: seq<Extracted>, content: Uuid, ghost edges: seq<Edge>,
                     kept: set<Stored>, moved: seq<Edge>) returns (after: set<Stored>)
    requires CollisionFree(n) && Sound(n, g) && Batch(n, content, records, edges)
    requires AllMoved(n, g, records, edges, moved) && (forall e :: e in kept ==> e.source != content)
    ensures after == kept + set e | e in moved :: Stored(content, e)
  {
    hide CollisionFree, Sound, Remap, Moved, Known;
    after := kept;
    for i := 0 to |moved|
      invariant after == kept + set e | e in moved[..i] :: Stored(content, e)
    {
      if Stored(content, moved[i]) in after {
        var j :| 0 <= j < |moved[..i]| && moved[..i][j] == moved[i];
        assert edges[i] in edges && edges[j] in edges;
        MovedDistinct(n, g, content, records, edges[i], edges[j]);
        assert false;
      }
      assert moved[..i + 1] == moved[..i] + [moved[i]];
      after := after + {Stored(content, moved[i])};
    }
    assert moved[..|moved|] == moved;
  }

  method SweepOrphans(entities: map<Uuid, Entity>, edges: set<Stored>, candidates: set<Uuid>) returns (after: map<Uuid, Entity>)
    ensures after == Swept(entities, edges, candidates)
  {
    hide Endpoint;
    after := entities;
    var todo := candidates;
    while todo != {}
      invariant todo <= candidates
      invariant after == map u | u in entities && (u in candidates && u !in todo ==> Endpoint(edges, u)) :: entities[u]
    {
      var u :| u in todo;
      if !Endpoint(edges, u) {
        after := after - {u};
      }
      todo := todo - {u};
    }
  }

  // ----- apply_extraction

  /** Unicode trimming, lower-casing and character counting. */
  datatype Unicode = Unicode(trim: Text -> Text, lower: Text -> Text, chars: Text -> nat)

  datatype Named = Named(name: Text, description: Option<Text>)
  datatype Relation = Relation(src: Text, dst: Text, kind: Text)
  datatype Extraction = Extraction(entities: seq<Named>, relations: seq<Relation>)

  const MENTIONS: Text := [0x6D, 0x65, 0x6E, 0x74, 0x69, 0x6F, 0x6E, 0x73]
  const AI_PREFIX: Text := [0x61, 0x69, 0x3A]

  predicate Kept(u: Unicode, e: Named) { u.trim(e.name) != [] && u.chars(u.trim(e.name)) <= 200 }

  function RecordOf(n: Naming, u: Unicode, e: Named): Extracted {
    var name := u.trim(e.name);
    var key := u.lower(name);
    var description := match e.description case Some(d) => u.trim(d) case None => [];
    Extracted(n.derive(key), name, key, description)
  }

  function RecordsOf(n: Naming, u: Unicode, es: seq<Named>): seq<Extracted> {
    if es == [] then []
    else RecordsOf(n, u, es[..|es| - 1]) + (if Kept(u, es[|es| - 1]) then [RecordOf(n, u, es[|es| - 1])] else [])
  }

  lemma {:induction false} RecordsDerived(n: Naming, u: Unicode, es: seq<Named>)
    ensures forall r :: r in RecordsOf(n, u, es) ==> r.uuid == n.derive(r.key)
  {
    if es != [] {
      RecordsDerived(n, u, es[..|es| - 1]);
    }
  }

  function KeyOf(u: Unicode, name: Text): Text { u.lower(u.trim(name)) }

  predicate Names(records: seq<Extracted>, key: Text) { exists r :: r in records && r.key == key }

  /** A relation between two different extracted entities, with a usable kind. */
  predicate Usable(n: Naming, u: Unicode, records: seq<Extracted>, r: Relation) {
    && Names(records, KeyOf(u, r.src)) && Names(records, KeyOf(u, r.dst))
    && n.derive(KeyOf(u, r.src)) != n.derive(KeyOf(u, r.dst))
    && KeyOf(u, r.kind) != [] && u.chars(KeyOf(u, r.kind)) <= 64
  }

  function RelationEdge(n: Naming, u: Unicode, r: Relation): Edge {
    Edge(n.derive(KeyOf(u, r.src)), n.derive(KeyOf(u, r.dst)), AI_PREFIX + KeyOf(u, r.kind))
  }

  ghost predicate Mention(content: Uuid, records: seq<Extracted>, e: Edge) {
    exists r :: r in records && e == Edge(content, r.uuid, MENTIONS)
  }

  ghost predicate Related(n: Naming, u: Unicode, records: seq<Extracted>, relations: seq<Relation>, e: Edge) {
    exists r :: r in relations && Usable(n, u, records, r) && e == RelationEdge(n, u, r)
  }

  /** The edges a result asks for: a mention of each kept entity, and each usable relation. */
  ghost predicate Desired(n: Naming, u: Unicode, content: Uuid, x: Extraction, e: Edge) {
    var records := RecordsOf(n, u, x.entities);
    Mention(content, records, e) || Related(n, u, records, x.relations, e)
  }

  // Order of edges by source, destination and kind.

  predicate EdgeBefore(a: Edge, b: Edge) {
    a.src < b.src || (a.src == b.src && (a.dst < b.dst || (a.dst == b.dst && LexLt(a.kind, b.kind))))
  }

  lemma EdgeOrder(a: Edge, b: Edge, c: Edge)
    ensures !EdgeBefore(a, a)
    ensures EdgeBefore(a, b) && EdgeBefore(b, c) ==> EdgeBefore(a, c)
    ensures a == b || EdgeBefore(a, b) || EdgeBefore(b, a)
  {
    hide LexLt;
    LexIrreflexive(a.kind);
    LexTrichotomy(a.kind, b.kind);
    if LexLt(a.kind, b.kind) && LexLt(b.kind, c.kind) {
      LexTransitive(a.kind, b.kind, c.kind);
    }
  }

  function InsertEdge(e: Edge, sorted: seq<Edge>): seq<Edge> {
    if sorted == [] || !EdgeBefore(sorted[0], e) then [e] + sorted else [sorted[0]] + InsertEdge(e, sorted[1..])
  }

  function SortEdges(es: seq<Edge>): seq<Edge> { if es == [] then [] else InsertEdge(es[0], SortEdges(es[1..])) }

  predicate InOrder(es: seq<Edge>) { forall i :: 0 <= i < |es| - 1 ==> !EdgeBefore(es[i + 1], es[i]) }

  lemma {:induction false} InsertEdgeSorts(e: Edge, sorted: seq<Edge>)
    requires InOrder(sorted)
    ensures InOrder(InsertEdge(e, sorted))
    ensures forall x :: x in InsertEdge(e, sorted) <==> x == e || x in sorted
  {
    hide EdgeBefore;
    if sorted != [] && EdgeBefore(sorted[0], e) {
      var rest := sorted[1..];
      assert forall i :: 0 <= i < |rest| ==> rest[i] == sorted[i + 1];
      InsertEdgeSorts(e, rest);
      EdgeOrder(e, sorted[0], e);
      assert sorted == [sorted[0]] + rest;
    } else {
      assert forall i :: 0 <= i < |sorted| ==> ([e] + sorted)[i + 1] == sorted[i];
    }
  }

  lemma {:induction false} SortEdgesSorts(es: seq<Edge>)
    ensures InOrder(SortEdges(es)) && forall x :: x in SortEdges(es) <==> x in es
  {
    if es != [] {
      SortEdgesSorts(es[1..]);
      InsertEdgeSorts(es[0], SortEdges(es[1..]));
    }
  }

  predicate Ascends(es: seq<Edge>) { forall i, j :: 0 <= i < j < |es| ==> EdgeBefore(es[i], es[j]) }

  /** `dedup`: drops an element equal to the one kept last. */
  method Dedup(es: seq<Edge>) returns (out: seq<Edge>)
    requires InOrder(es)
    ensures Ascends(out) && forall x :: x in out <==> x in es
  {
    hide EdgeBefore;
    out := [];
    for i := 0 to |es|
      invariant Ascends(out) && (forall x :: x in out <==> x in es[..i])
      invariant if i == 0 then out == [] else out != [] && out[|out| - 1] == es[i - 1]
    {
      assert es[..i + 1] == es[..i] + [es[i]];
      if out == [] || out[|out| - 1] != es[i] {
        if out != [] {
          var last := out[|out| - 1];
          assert !EdgeBefore(es[i - 1 + 1], es[i - 1]);
          EdgeOrder(last, es[i], es[i]);
          forall j | 0 <= j < |out|
            ensures EdgeBefore(out[j], es[i])
          {
            EdgeOrder(out[j], last, es[i]);
          }
        }
        out := out + [es[i]];
      }
    }
    assert es[..|es|] == es;
  }

  /** The loops of `apply_extraction`: a batch the store can take, with exactly the desired edges. */
  method Prepare(n: Naming, u: Unicode, content: Uuid, x: Extraction) returns (records: seq<Extracted>, edges: seq<Edge>)
    requires n.isContent(content)
    ensures records == RecordsOf(n, u, x.entities) && Batch(n, content, records, edges)
    ensures forall e :: e in edges <==> Desired(n, u, content, x, e)
  {
    hide EdgeBefore, Mention, Related;
    records := [];
    var known: map<Text, Uuid> := map[];
    var desired: seq<Edge> := [];
    NoMentions(content);
    for i := 0 to |x.entities|
      invariant records == RecordsOf(n, u, x.entities[..i])
      invariant forall k :: k in known <==> Names(records, k)
      invariant forall k :: k in known ==> known[k] == n.derive(k)
      invariant forall e :: e in desired <==> Mention(content, records, e)
    {
      assert x.entities[..i + 1][..i] == x.entities[..i];
      var entity := x.entities[i];
      if Kept(u, entity) {
        var r := RecordOf(n, u, entity);
        MoreNames(records, r);
        MoreMentions(content, records, r);
        records := records + [r];
        known := known[r.key := r.uuid];
        desired := desired + [Edge(content, r.uuid, MENTIONS)];
      }
    }
    assert x.entities[..|x.entities|] == x.entities;
    NoRelations(n, u, records);
    ghost var mentions := desired;
    for i := 0 to |x.relations|
      invariant forall e :: e in desired <==> e in mentions || Related(n, u, records, x.relations[..i], e)
    {
      var r := x.relations[i];
      assert x.relations[..i + 1] == x.relations[..i] + [r];
      MoreRelations(n, u, records, x.relations[..i], r);
      var src, dst := KeyOf(u, r.src), KeyOf(u, r.dst);
      if src in known && dst in known {
        var kind := KeyOf(u, r.kind);
        if known[src] != known[dst] && kind != [] && u.chars(kind) <= 64 {
          desired := desired + [Edge(known[src], known[dst], AI_PREFIX + kind)];
        }
      }
    }
    assert x.relations[..|x.relations|] == x.relations;
    SortEdgesSorts(desired);
    edges := Dedup(SortEdges(desired));
    RecordsDerived(n, u, x.entities);
    Distinct(edges);
    forall e | e in edges
      ensures Known(content, records, e.src) && Known(content, records, e.dst)
    {
      DesiredKnown(n, u, content, x, e);
    }
  }

  lemma MoreNames(records: seq<Extracted>, r: Extracted)
    ensures forall k :: Names(records + [r], k) <==> Names(records, k) || k == r.key
  {
    assert r in records + [r] && forall y :: y in records ==> y in records + [r];
  }

  lemma MoreMentions(content: Uuid, records: seq<Extracted>, r: Extracted)
    ensures forall e :: Mention(content, records + [r], e) <==> Mention(content, records, e) || e == Edge(content, r.uuid, MENTIONS)
  {
    assert r in records + [r] && forall y :: y in records ==> y in records + [r];
  }

  lemma NoMentions(content: Uuid)
    ensures forall e :: !Mention(content, [], e)
  {
  }

  lemma NoRelations(n: Naming, u: Unicode, records: seq<Extracted>)
    ensures forall e :: !Related(n, u, records, [], e)
  {
  }

  lemma MoreRelations(n: Naming, u: Unicode, records: seq<Extracted>, done: seq<Relation>, r: Relation)
    ensures forall e :: Related(n, u, records, done + [r], e)
              <==> Related(n, u, records, done, e) || (Usable(n, u, records, r) && e == RelationEdge(n, u, r))
  {
    hide Usable, RelationEdge;
    assert r in done + [r] && forall y :: y in done ==> y in done + [r];
  }

  lemma Distinct(es: seq<Edge>)
    requires Ascends(es)
    ensures forall i, j :: 0 <= i < j < |es| ==> es[i] != es[j]
  {
    hide EdgeBefore;
    forall i, j | 0 <= i < j < |es|
      ensures es[i] != es[j]
    {
      EdgeOrder(es[i], es[i], es[i]);
    }
  }

  lemma DesiredKnown(n: Naming, u: Unicode, content: Uuid, x: Extraction, e: Edge)
    requires Desired(n, u, content, x, e)
    ensures Known(content, RecordsOf(n, u, x.entities), e.src) && Known(content, RecordsOf(n, u, x.entities), e.dst)
  {
    var records := RecordsOf(n, u, x.entities);
    RecordsDerived(n, u, x.entities);
    if !Mention(content, records, e) {
      var r :| r in x.relations && Usable(n, u, records, r) && e == RelationEdge(n, u, r);
      var a :| a in records && a.key == KeyOf(u, r.src);
      var b :| b in records && b.key == KeyOf(u, r.dst);
      assert a.uuid == e.src && b.uuid == e.dst;
    }
  }

  // ----- the store

  /** The document's input has been extracted as it is. */
  predicate UpToDate(g: Graph, c: Uuid, hash: Text) { c in g.done && g.done[c].hash == hash }

  /** A job for each document not extracted at its hash, and no other. */
  function Queued(g: Graph, docs: map<Uuid, Text>, seqno: int): map<Uuid, Progress> {
    map c | c in docs && !UpToDate(g, c, docs[c]) :: Progress(docs[c], seqno)
  }

  /** Sources that left a trace and are no longer documents. */
  function StaleSources(g: Graph, docs: map<Uuid, Text>): set<Uuid> {
    (g.done.Keys + set e | e in g.edges :: e.source) - docs.Keys
  }

  lemma JobsDoNotMatter(n: Naming, g: Graph, jobs: map<Uuid, Progress>)
    requires Sound(n, g)
    ensures Sound(n, g.(jobs := jobs))
  {
  }

  class ExtractionStore {
    var graph: Graph
    const naming: Naming

    constructor (naming: Naming)
      ensures this.naming == naming && graph == Graph(map[], {}, map[], map[]) && Sound(naming, graph)
    {
      this.naming := naming;
      graph := Graph(map[], {}, map[], map[]);
    }

    ghost predicate Valid()
      reads this
    {
      CollisionFree(naming) && Sound(naming, graph)
    }

    /** `reconcile_extractions` past its cursor check: queues every document not yet extracted at its hash, drops the
        jobs of documents that are gone, and reports the sources to forget. */
    method Reconcile(docs: map<Uuid, Text>, seqno: int) returns (stale: set<Uuid>)
      requires Valid()
      modifies this
      ensures Valid() && graph == old(graph).(jobs := Queued(old(graph), docs, seqno))
      ensures stale == StaleSources(old(graph), docs)
    {
      hide CollisionFree, Sound, UpToDate;
      var jobs := graph.jobs;
      var todo := docs.Keys;
      while todo != {}
        invariant todo <= docs.Keys
        invariant forall c :: c in jobs && c !in docs ==> c in graph.jobs
        invariant forall c :: c in docs && c !in todo ==> (c in jobs <==> !UpToDate(graph, c, docs[c]))
        invariant forall c :: c in docs && c !in todo && c in jobs ==> jobs[c] == Progress(docs[c], seqno)
      {
        var c :| c in todo;
        jobs := if UpToDate(graph, c, docs[c]) then jobs - {c} else jobs[c := Progress(docs[c], seqno)];
        todo := todo - {c};
      }
      stale := (graph.done.Keys + set e | e in graph.edges :: e.source) - docs.Keys;
      jobs := map c | c in jobs && c in docs :: jobs[c];
      assert jobs == Queued(graph, docs, seqno);
      JobsDoNotMatter(naming, graph, jobs);
      graph := graph.(jobs := jobs);
    }

    /** `finish_extraction`: nothing once the job's input has changed; otherwise the source's edges are
        replaced and entities without edges go. */
    method FinishExtraction(content: Uuid, hash: Text, records: seq<Extracted>, edges: seq<Edge>, now: int)
      requires Valid() && Batch(naming, content, records, edges)
      modifies this
      ensures Valid() && Finishes(naming, old(graph), content, hash, records, edges, now, graph)
    {
      hide CollisionFree, Sound, Adopted, AllMoved, UpsertAll, Swept, EndpointsOf, EdgesWithout, Canon, Maps, NoOrphans, Closed,
           Unclashing;
      var g := graph;
      if content !in g.jobs || g.jobs[content].hash != hash {
        return;
      }
      assert UniqueNames(g.entities) by { NamesUnique(naming, g); }
      var adopted, remap := Adopt(naming, g, records);
      var moved := MoveEdges(naming, g, records, edges, remap);
      var candidates := EndpointsOf(g.edges, content) + set r | r in adopted :: r.uuid;
      var kept := EdgesWithout(g.edges, content);
      var entities := UpsertEntities(naming, g, records, g.entities, adopted, now);
      KeptElsewhere(g.edges, content);
      var all := InsertEdges(naming, g, records, content, edges, kept, moved);
      entities := SweepOrphans(entities, all, candidates);
      graph := Graph(entities, all, g.done[content := g.jobs[content]], g.jobs - {content});
      FinishKeeps(naming, g, content, hash, records, edges, now, graph);
    }

    /** `forget_extraction_source`. */
    method Forget(source: Uuid)
      requires Valid()
      modifies this
      ensures Valid() && graph == Forgotten(old(graph), source)
    {
      hide CollisionFree, Sound, Swept, EndpointsOf, EdgesWithout;
      var g := graph;
      var candidates := EndpointsOf(g.edges, source);
      var edges := EdgesWithout(g.edges, source);
      var entities := SweepOrphans(g.entities, edges, candidates);
      graph := Graph(entities, edges, g.done - {source}, g.jobs - {source});
      ForgetKeeps(naming, g, source);
    }

    /** `apply_extraction`. */
    method Apply(u: Unicode, content: Uuid, hash: Text, x: Extraction, now: int)
      requires Valid() && naming.isContent(content)
      modifies this
      ensures Valid()
      ensures exists edges ::
        (forall e :: e in edges <==> Desired(naming, u, content, x, e))
        && Finishes(naming, old(graph), content, hash, RecordsOf(naming, u, x.entities), edges, now, graph)
    {
      hide CollisionFree, Sound, Finishes, Desired;
      var records, edges := Prepare(naming, u, content, x);
      FinishExtraction(content, hash, records, edges, now);
    }
  }

  lemma NamesUnique(n: Naming, g: Graph)
    requires Sound(n, g)
    ensures UniqueNames(g.entities)
  {
  }

  lemma KeptElsewhere(edges: set<Stored>, source: Uuid)
    ensures forall e :: e in EdgesWithout(edges, source) ==> e.source != source
  {
  }
}
