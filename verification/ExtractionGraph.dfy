/** The entity graph of `crates/notes-ai/src/store.rs`: adopting stored entities, replacing the edges of a
    source, and collecting orphans. */
module ExtractionGraph {
  import opened Bytes
  import opened Results

  type Uuid = nat
  type Text = seq<Byte>

  datatype Entity = Entity(name: Text, key: Text, description: Text, updated: int)
  datatype Edge = Edge(src: Uuid, dst: Uuid, kind: Text)
  datatype Stored = Stored(source: Uuid, edge: Edge)
  datatype Progress = Progress(hash: Text, seqno: int)

  /** `entities`, `extraction_edges`, `extraction_state` and `extraction_jobs`. */
  datatype Graph = Graph(entities: map<Uuid, Entity>, edges: set<Stored>, done: map<Uuid, Progress>, jobs: map<Uuid, Progress>)

  /** An extracted entity under the identifier derived from its normalised name. */
  datatype Extracted = Extracted(uuid: Uuid, name: Text, key: Text, description: Text)

  /** How identifiers are derived from names now, and which identifiers are those of notes content. */
  datatype Naming = Naming(derive: Text -> Uuid, isContent: Uuid -> bool)

  /** Derived identifiers are collision-free. */
  ghost predicate CollisionFree(n: Naming) {
    && (forall a, b {:trigger n.derive(a), n.derive(b)} :: n.derive(a) == n.derive(b) ==> a == b)
    && (forall a :: !n.isContent(n.derive(a)))
  }

  // ----- the invariant

  predicate Touches(e: Edge, u: Uuid) { e.src == u || e.dst == u }

  predicate Endpoint(edges: set<Stored>, u: Uuid) { exists e :: e in edges && Touches(e.edge, u) }

  /** Every entity is an endpoint of some edge. */
  ghost predicate NoOrphans(g: Graph) { forall u :: u in g.entities ==> Endpoint(g.edges, u) }

  /** Every endpoint is the content the edge came from, or a stored entity. */
  ghost predicate Closed(g: Graph) {
    forall e, u :: e in g.edges && Touches(e.edge, u) ==> u == e.source || u in g.entities
  }

  ghost predicate UniqueNames(entities: map<Uuid, Entity>) {
    forall u, v :: u in entities && v in entities && entities[u].key == entities[v].key ==> u == v
  }

  /** Identifiers stored under an earlier derivation clash neither with derived ones nor with content. */
  ghost predicate Unclashing(n: Naming, g: Graph) {
    && (forall u, k :: u in g.entities && n.derive(k) == u ==> g.entities[u].key == k)
    && (forall u :: u in g.entities ==> !n.isContent(u))
    && (forall e :: e in g.edges ==> n.isContent(e.source))
  }

  ghost predicate Sound(n: Naming, g: Graph) {
    NoOrphans(g) && Closed(g) && UniqueNames(g.entities) && Unclashing(n, g)
  }

  // ----- canonical identifiers

  /** The identifier a name is stored under. */
  ghost function Owner(entities: map<Uuid, Entity>, key: Text): Option<Uuid> {
    if u :| u in entities && entities[u].key == key then Some(u) else None
  }

  lemma OwnerIs(entities: map<Uuid, Entity>, u: Uuid)
    requires UniqueNames(entities) && u in entities
    ensures Owner(entities, entities[u].key) == Some(u)
  {
  }

  ghost function Canon(n: Naming, g: Graph, key: Text): Uuid {
    match Owner(g.entities, key)
    case Some(u) => u
    case None => n.derive(key)
  }

  lemma CanonInjective(n: Naming, g: Graph, a: Text, b: Text)
    requires CollisionFree(n) && Sound(n, g) && Canon(n, g, a) == Canon(n, g, b)
    ensures a == b
  {
    hide NoOrphans, Closed, UniqueNames;
  }

  lemma CanonIsNoContent(n: Naming, g: Graph, key: Text)
    requires CollisionFree(n) && Sound(n, g)
    ensures !n.isContent(Canon(n, g, key))
  {
    hide NoOrphans, Closed, UniqueNames;
  }

  // ----- what a batch of extracted entities and edges must be

  predicate Known(content: Uuid, records: seq<Extracted>, u: Uuid) {
    u == content || exists r :: r in records && r.uuid == u
  }

  ghost predicate Batch(n: Naming, content: Uuid, records: seq<Extracted>, edges: seq<Edge>) {
    && n.isContent(content)
    && (forall r :: r in records ==> r.uuid == n.derive(r.key))
    && (forall e :: e in edges ==> Known(content, records, e.src) && Known(content, records, e.dst))
    && (forall i, j :: 0 <= i < j < |edges| ==> edges[i] != edges[j])
  }

  // ----- adopt_existing_entities

  /** Where an endpoint goes: entities to the identifier of their name, content to itself. */
  ghost function Remap(n: Naming, g: Graph, records: seq<Extracted>, u: Uuid): Uuid {
    if r :| r in records && r.uuid == u then Canon(n, g, r.key) else u
  }

  ghost function Moved(n: Naming, g: Graph, records: seq<Extracted>, e: Edge): Edge {
    Edge(Remap(n, g, records, e.src), Remap(n, g, records, e.dst), e.kind)
  }

  lemma RemapOf(n: Naming, g: Graph, records: seq<Extracted>, r: Extracted)
    requires CollisionFree(n) && r in records && (forall x :: x in records ==> x.uuid == n.derive(x.key))
    ensures Remap(n, g, records, r.uuid) == Canon(n, g, r.key)
  {
    var x :| x in records && x.uuid == r.uuid && Remap(n, g, records, r.uuid) == Canon(n, g, x.key);
    assert n.derive(x.key) == n.derive(r.key);
  }

  lemma RemapOfContent(n: Naming, g: Graph, records: seq<Extracted>, content: Uuid)
    requires CollisionFree(n) && n.isContent(content) && (forall x :: x in records ==> x.uuid == n.derive(x.key))
    ensures Remap(n, g, records, content) == content
  {
  }

  lemma RemapInjective(n: Naming, g: Graph, content: Uuid, records: seq<Extracted>, u: Uuid, v: Uuid)
    requires CollisionFree(n) && Sound(n, g) && n.isContent(content)
    requires forall x :: x in records ==> x.uuid == n.derive(x.key)
    requires Known(content, records, u) && Known(content, records, v)
    requires Remap(n, g, records, u) == Remap(n, g, records, v)
    ensures u == v
  {
    hide CollisionFree, Sound, Canon, Remap;
    RemapOfContent(n, g, records, content);
    if u != content {
      var r :| r in records && r.uuid == u;
      RemapOf(n, g, records, r);
      CanonIsNoContent(n, g, r.key);
      if v != content {
        var x :| x in records && x.uuid == v;
        RemapOf(n, g, records, x);
        CanonInjective(n, g, r.key, x.key);
      }
    } else if v != content {
      var x :| x in records && x.uuid == v;
      RemapOf(n, g, records, x);
      CanonIsNoContent(n, g, x.key);
    }
  }

  /** Distinct edges stay distinct: no insertion repeats a primary key. */
  lemma MovedDistinct(n: Naming, g: Graph, content: Uuid, records: seq<Extracted>, d: Edge, e: Edge)
    requires CollisionFree(n) && Sound(n, g) && n.isContent(content)
    requires forall x :: x in records ==> x.uuid == n.derive(x.key)
    requires Known(content, records, d.src) && Known(content, records, d.dst)
    requires Known(content, records, e.src) && Known(content, records, e.dst)
    requires Moved(n, g, records, d) == Moved(n, g, records, e)
    ensures d == e
  {
    hide CollisionFree, Sound, Remap, Known;
    RemapInjective(n, g, content, records, d.src, e.src);
    RemapInjective(n, g, content, records, d.dst, e.dst);
  }

  // ----- upserting entities

  function Upserted(entities: map<Uuid, Entity>, r: Extracted, now: int): Entity {
    Entity(r.name, r.key, if r.description == [] && r.uuid in entities then entities[r.uuid].description else r.description, now)
  }

  function UpsertAll(entities: map<Uuid, Entity>, records: seq<Extracted>, now: int): map<Uuid, Entity> {
    if records == [] then entities
    else
      var before := UpsertAll(entities, records[..|records| - 1], now);
      var r := records[|records| - 1];
      before[r.uuid := Upserted(before, r, now)]
  }

  /** Every entity sits under the identifier of its name. */
  ghost predicate Placed(n: Naming, g: Graph, entities: map<Uuid, Entity>) {
    forall u :: u in entities ==> u == Canon(n, g, entities[u].key)
  }

  lemma PlacedFirst(n: Naming, g: Graph)
    requires UniqueNames(g.entities)
    ensures Placed(n, g, g.entities)
  {
    forall u | u in g.entities
      ensures u == Canon(n, g, g.entities[u].key)
    {
      OwnerIs(g.entities, u);
    }
  }

  /** An adopted record meets no other entity with its name, and leaves every entity in its place. */
  lemma UpsertPlaced(n: Naming, g: Graph, entities: map<Uuid, Entity>, r: Extracted, now: int)
    requires Placed(n, g, entities) && r.uuid == Canon(n, g, r.key)
    ensures forall u :: u in entities && u != r.uuid ==> entities[u].key != r.key
    ensures Placed(n, g, entities[r.uuid := Upserted(entities, r, now)])
  {
    hide Canon;
  }

  lemma PlacedUnique(n: Naming, g: Graph, entities: map<Uuid, Entity>)
    requires Placed(n, g, entities)
    ensures UniqueNames(entities)
  {
    hide Canon;
  }

  /** The records with the identifiers they are stored under. */
  ghost predicate Adopted(n: Naming, g: Graph, records: seq<Extracted>, adopted: seq<Extracted>) {
    |adopted| == |records| &&
    forall i :: 0 <= i < |records| ==> adopted[i] == records[i].(uuid := Canon(n, g, records[i].key))
  }

  ghost predicate AllMoved(n: Naming, g: Graph, records: seq<Extracted>, edges: seq<Edge>, moved: seq<Edge>) {
    |moved| == |edges| && forall i :: 0 <= i < |edges| ==> moved[i] == Moved(n, g, records, edges[i])
  }

  lemma {:induction false} UpsertAllPlaced(n: Naming, g: Graph, records: seq<Extracted>, adopted: seq<Extracted>, now: int)
    requires Placed(n, g, g.entities) && Adopted(n, g, records, adopted)
    ensures Placed(n, g, UpsertAll(g.entities, adopted, now))
    ensures forall u :: u in UpsertAll(g.entities, adopted, now) <==>
              u in g.entities || exists i :: 0 <= i < |adopted| && adopted[i].uuid == u
    decreases |records|
  {
    hide Canon, Upserted;
    if adopted != [] {
      var k := |records| - 1;
      UpsertAllPlaced(n, g, records[..k], adopted[..k], now);
      UpsertPlaced(n, g, UpsertAll(g.entities, adopted[..k], now), adopted[k], now);
      forall u | u in UpsertAll(g.entities, adopted, now) && u !in g.entities
        ensures exists i :: 0 <= i < |adopted| && adopted[i].uuid == u
      {
        if u == adopted[k].uuid {
        } else {
          var i :| 0 <= i < k && adopted[..k][i].uuid == u;
          assert adopted[i].uuid == u;
        }
      }
      forall i | 0 <= i < |adopted|
        ensures adopted[i].uuid in UpsertAll(g.entities, adopted, now)
      {
        if i < k {
          assert adopted[..k][i].uuid == adopted[i].uuid;
        }
      }
    }
  }

  // ----- the two transactions

  function EdgesWithout(edges: set<Stored>, source: Uuid): set<Stored> { set e | e in edges && e.source != source }

  function EndpointsOf(edges: set<Stored>, source: Uuid): set<Uuid> {
    (set e | e in edges && e.source == source :: e.edge.src) + (set e | e in edges && e.source == source :: e.edge.dst)
  }

  /** `delete_orphan_entities` over all candidates. */
  function Swept(entities: map<Uuid, Entity>, edges: set<Stored>, candidates: set<Uuid>): map<Uuid, Entity> {
    map u | u in entities && (u in candidates ==> Endpoint(edges, u)) :: entities[u]
  }

  ghost predicate Finishes(n: Naming, g: Graph, content: Uuid, hash: Text, records: seq<Extracted>, edges: seq<Edge>, now: int, h: Graph) {
    if content !in g.jobs || g.jobs[content].hash != hash then h == g
    else exists adopted: seq<Extracted>, moved: seq<Edge> ::
      && Adopted(n, g, records, adopted) && AllMoved(n, g, records, edges, moved)
      && h.edges == EdgesWithout(g.edges, content) + (set e | e in moved :: Stored(content, e))
      && h.entities == Swept(UpsertAll(g.entities, adopted, now), h.edges,
                             EndpointsOf(g.edges, content) + (set r | r in adopted :: r.uuid))
      && h.done == g.done[content := g.jobs[content]] && h.jobs == g.jobs - {content}
  }

  function Forgotten(g: Graph, source: Uuid): Graph {
    var edges := EdgesWithout(g.edges, source);
    Graph(Swept(g.entities, edges, EndpointsOf(g.edges, source)), edges, g.done - {source}, g.jobs - {source})
  }

  // ----- both keep the invariant

  /** An entity that lost its last edge lost it with this source, and so is a candidate. */
  lemma SweptHasNoOrphans(g: Graph, source: Uuid, entities: map<Uuid, Entity>, edges: set<Stored>, added: set<Uuid>)
    requires NoOrphans(g) && EdgesWithout(g.edges, source) <= edges
    requires forall u :: u in entities ==> u in g.entities || u in added
    ensures forall u :: u in Swept(entities, edges, EndpointsOf(g.edges, source) + added) ==> Endpoint(edges, u)
  {
    var candidates := EndpointsOf(g.edges, source) + added;
    forall u | u in Swept(entities, edges, candidates)
      ensures Endpoint(edges, u)
    {
      if u !in candidates {
        var e :| e in g.edges && Touches(e.edge, u);
        assert e.source == source ==> u in EndpointsOf(g.edges, source);
        assert e in edges;
      }
    }
  }

  lemma ForgetKeeps(n: Naming, g: Graph, source: Uuid)
    requires Sound(n, g)
    ensures Sound(n, Forgotten(g, source))
  {
    hide EndpointsOf, UniqueNames;
    var h := Forgotten(g, source);
    SweptHasNoOrphans(g, source, g.entities, h.edges, {});
    assert EndpointsOf(g.edges, source) + {} == EndpointsOf(g.edges, source);
    assert UniqueNames(h.entities) by { FewerNames(g.entities, h.entities); }
    forall e, u | e in h.edges && Touches(e.edge, u)
      ensures u == e.source || u in h.entities
    {
      assert Endpoint(h.edges, u);
    }
  }

  lemma FewerNames(entities: map<Uuid, Entity>, fewer: map<Uuid, Entity>)
    requires UniqueNames(entities) && forall u :: u in fewer ==> u in entities && fewer[u] == entities[u]
    ensures UniqueNames(fewer)
  {
  }

  /** The new edges end at the content or at adopted entities. */
  lemma MovedEnds(n: Naming, g: Graph, content: Uuid, records: seq<Extracted>, adopted: seq<Extracted>, u: Uuid)
    requires CollisionFree(n) && n.isContent(content) && (forall x :: x in records ==> x.uuid == n.derive(x.key))
    requires Known(content, records, u) && Adopted(n, g, records, adopted)
    ensures Remap(n, g, records, u) == content || exists i :: 0 <= i < |adopted| && adopted[i].uuid == Remap(n, g, records, u)
  {
    hide CollisionFree, Canon, Remap;
    if u == content {
      RemapOfContent(n, g, records, content);
    } else {
      var r :| r in records && r.uuid == u;
      RemapOf(n, g, records, r);
      var i :| 0 <= i < |records| && records[i] == r;
      assert adopted[i].uuid == Canon(n, g, r.key);
    }
  }

  lemma PlacedUnclashing(n: Naming, g: Graph, h: Graph)
    requires CollisionFree(n) && Sound(n, g) && Placed(n, g, h.entities)
    requires forall e :: e in h.edges ==> n.isContent(e.source)
    ensures Unclashing(n, h)
  {
    hide NoOrphans, Closed;
    forall u, k | u in h.entities && n.derive(k) == u
      ensures h.entities[u].key == k
    {
    }
  }

  lemma FinishKeeps(n: Naming, g: Graph, content: Uuid, hash: Text, records: seq<Extracted>, edges: seq<Edge>, now: int, h: Graph)
    requires CollisionFree(n) && Sound(n, g) && Batch(n, content, records, edges)
    requires Finishes(n, g, content, hash, records, edges, now, h)
    ensures Sound(n, h)
  {
    hide CollisionFree, Unclashing, Canon, Remap, UpsertAll, EndpointsOf, UniqueNames, NoOrphans, Placed;
    if content in g.jobs && g.jobs[content].hash == hash {
      var adopted: seq<Extracted>, moved: seq<Edge> :|
        && Adopted(n, g, records, adopted) && AllMoved(n, g, records, edges, moved)
        && h.edges == EdgesWithout(g.edges, content) + (set e | e in moved :: Stored(content, e))
        && h.entities == Swept(UpsertAll(g.entities, adopted, now), h.edges,
                               EndpointsOf(g.edges, content) + (set r | r in adopted :: r.uuid))
        && h.done == g.done[content := g.jobs[content]] && h.jobs == g.jobs - {content};
      FinishParts(n, g, content, records, edges, now, adopted, moved, h);
    }
  }

  lemma FinishParts(n: Naming, g: Graph, content: Uuid, records: seq<Extracted>, edges: seq<Edge>, now: int,
                    adopted: seq<Extracted>, moved: seq<Edge>, h: Graph)
    requires CollisionFree(n) && Sound(n, g) && Batch(n, content, records, edges)
    requires Adopted(n, g, records, adopted) && AllMoved(n, g, records, edges, moved)
    requires h.edges == EdgesWithout(g.edges, content) + (set e | e in moved :: Stored(content, e))
    requires h.entities == Swept(UpsertAll(g.entities, adopted, now), h.edges,
                                 EndpointsOf(g.edges, content) + (set r | r in adopted :: r.uuid))
    ensures Sound(n, h)
  {
    hide CollisionFree, Canon, Remap, UpsertAll, EndpointsOf, Placed, Adopted, Closed, UniqueNames, NoOrphans;
    var all := UpsertAll(g.entities, adopted, now);
    PlacedFirst(n, g);
    UpsertAllPlaced(n, g, records, adopted, now);
    var added := set r | r in adopted :: r.uuid;
    forall u | u in all
      ensures u in g.entities || u in added
    {
    }
    SweptHasNoOrphans(g, content, all, h.edges, added);
    FewerPlaced(n, g, all, h.entities);
    PlacedUnique(n, g, h.entities);
    Sources(n, g, content, h, moved);
    PlacedUnclashing(n, g, h);
    assert NoOrphans(h) by { AllEndpoints(h); }
    EdgesClosed(n, g, content, records, edges, adopted, moved, all, h);
  }

  lemma AllEndpoints(h: Graph)
    requires forall u :: u in h.entities ==> Endpoint(h.edges, u)
    ensures NoOrphans(h)
  {
  }

  lemma FewerPlaced(n: Naming, g: Graph, entities: map<Uuid, Entity>, fewer: map<Uuid, Entity>)
    requires Placed(n, g, entities) && forall u :: u in fewer ==> u in entities && fewer[u] == entities[u]
    ensures Placed(n, g, fewer)
  {
    hide Canon;
  }

  lemma Sources(n: Naming, g: Graph, content: Uuid, h: Graph, moved: seq<Edge>)
    requires Unclashing(n, g) && n.isContent(content)
    requires h.edges == EdgesWithout(g.edges, content) + (set e | e in moved :: Stored(content, e))
    ensures forall e :: e in h.edges ==> n.isContent(e.source)
  {
  }

  lemma EdgesClosed(n: Naming, g: Graph, content: Uuid, records: seq<Extracted>, edges: seq<Edge>,
                    adopted: seq<Extracted>, moved: seq<Edge>, all: map<Uuid, Entity>, h: Graph)
    requires CollisionFree(n) && Closed(g) && Batch(n, content, records, edges)
    requires Adopted(n, g, records, adopted) && AllMoved(n, g, records, edges, moved)
    requires h.edges == EdgesWithout(g.edges, content) + (set e | e in moved :: Stored(content, e))
    requires h.entities == Swept(all, h.edges, EndpointsOf(g.edges, content) + (set r | r in adopted :: r.uuid))
    requires forall u :: u in all <==> u in g.entities || exists i :: 0 <= i < |adopted| && adopted[i].uuid == u
    ensures Closed(h)
  {
    hide CollisionFree, Canon, Remap, EndpointsOf, Adopted;
    forall e, u | e in h.edges && Touches(e.edge, u)
      ensures u == e.source || u in h.entities
    {
      assert Endpoint(h.edges, u);
      if e !in g.edges || e.source == content {
        var i :| 0 <= i < |moved| && e == Stored(content, moved[i]);
        assert edges[i] in edges;
        MovedEnds(n, g, content, records, adopted, edges[i].src);
        MovedEnds(n, g, content, records, adopted, edges[i].dst);
      }
    }
  }
}
