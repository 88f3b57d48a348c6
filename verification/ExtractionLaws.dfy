/** What the extraction transactions of `crates/notes-ai` leave behind, edge by edge and entity by entity. */
module ExtractionLaws {
  import opened ExtractionGraph
  import opened ExtractionStore

  // ----- edges and entities

  /** The identifier a name has in the graph: the one it is stored under, or the derived one. */
  ghost predicate StandsFor(n: Naming, g: Graph, key: Text, u: Uuid) {
    if exists v :: v in g.entities && g.entities[v].key == key then u in g.entities && g.entities[u].key == key else u == n.derive(key)
  }

  /** An endpoint of an extracted edge and of the stored one: the content itself, or the entity of the same name. */
  ghost predicate EndMoved(n: Naming, g: Graph, content: Uuid, records: seq<Extracted>, u: Uuid, v: Uuid) {
    if u == content then v == content else exists r :: r in records && r.uuid == u && StandsFor(n, g, r.key, v)
  }

  ghost predicate EdgeMoved(n: Naming, g: Graph, content: Uuid, records: seq<Extracted>, e: Edge, m: Edge) {
    m.kind == e.kind && EndMoved(n, g, content, records, e.src, m.src) && EndMoved(n, g, content, records, e.dst, m.dst)
  }

  /** Record `i` is the last of its name. */
  predicate LastNamed(records: seq<Extracted>, i: nat, key: Text) {
    i < |records| && records[i].key == key && forall j :: i < j < |records| ==> records[j].key != key
  }

  /** Record `i` is the last of its name that has a description. */
  predicate LastDescribed(records: seq<Extracted>, i: nat, key: Text) {
    && i < |records| && records[i].key == key && records[i].description != []
    && forall j :: i < j < |records| && records[j].key == key ==> records[j].description == []
  }

  /** The description of the last record of this name that has one, else the stored one, else none. */
  ghost predicate DescriptionIs(g: Graph, records: seq<Extracted>, key: Text, u: Uuid, d: Text) {
    if exists i: nat :: LastDescribed(records, i, key) then exists i: nat :: LastDescribed(records, i, key) && d == records[i].description
    else d == if u in g.entities then g.entities[u].description else []
  }

  /** What the records make of the entity under `u`: untouched if none has its name, else named as the last of them. */
  ghost predicate EntityIs(g: Graph, records: seq<Extracted>, now: int, u: Uuid, e: Entity) {
    if forall r :: r in records ==> r.key != e.key then u in g.entities && e == g.entities[u]
    else
      && e.updated == now && DescriptionIs(g, records, e.key, u, e.description)
      && exists i: nat :: LastNamed(records, i, e.key) && e.name == records[i].name
  }

  lemma CanonStands(n: Naming, g: Graph, key: Text)
    requires UniqueNames(g.entities)
    ensures forall u :: StandsFor(n, g, key, u) <==> u == Canon(n, g, key)
  {
    if v :| v in g.entities && g.entities[v].key == key {
      OwnerIs(g.entities, v);
    }
  }

  lemma EndIs(n: Naming, g: Graph, content: Uuid, records: seq<Extracted>, u: Uuid)
    requires CollisionFree(n) && Sound(n, g) && n.isContent(content) && (forall r :: r in records ==> r.uuid == n.derive(r.key))
    requires Known(content, records, u)
    ensures forall v :: EndMoved(n, g, content, records, u, v) <==> v == Remap(n, g, records, u)
  {
    hide CollisionFree, Remap, Canon, NoOrphans, Closed, Unclashing, StandsFor, UniqueNames;
    RemapOfContent(n, g, records, content);
    forall r | r in records && r.uuid == u
      ensures Remap(n, g, records, u) == Canon(n, g, r.key)
      ensures forall v :: StandsFor(n, g, r.key, v) <==> v == Canon(n, g, r.key)
    {
      RemapOf(n, g, records, r);
      CanonStands(n, g, r.key);
    }
  }

  lemma MovedIs(n: Naming, g: Graph, content: Uuid, records: seq<Extracted>, e: Edge)
    requires CollisionFree(n) && Sound(n, g) && n.isContent(content) && (forall r :: r in records ==> r.uuid == n.derive(r.key))
    requires Known(content, records, e.src) && Known(content, records, e.dst)
    ensures forall m :: EdgeMoved(n, g, content, records, e, m) <==> m == Moved(n, g, records, e)
  {
    hide CollisionFree, Sound, Remap, Known, EndMoved;
    EndIs(n, g, content, records, e.src);
    EndIs(n, g, content, records, e.dst);
  }

  // ----- the entities after the upserts

  lemma LastNamedMore(records: seq<Extracted>, r: Extracted, i: nat, key: Text)
    ensures LastNamed(records + [r], i, key) <==> if r.key == key then i == |records| else LastNamed(records, i, key)
  {
    assert (records + [r])[|records|] == r;
    assert forall j :: 0 <= j < |records| ==> (records + [r])[j] == records[j];
  }

  lemma LastDescribedMore(records: seq<Extracted>, r: Extracted, i: nat, key: Text)
    ensures LastDescribed(records + [r], i, key) <==>
              if r.key == key && r.description != [] then i == |records| else LastDescribed(records, i, key)
  {
    assert (records + [r])[|records|] == r;
    assert forall j :: 0 <= j < |records| ==> (records + [r])[j] == records[j];
  }

  lemma {:induction false} UpsertsAre(n: Naming, g: Graph, records: seq<Extracted>, adopted: seq<Extracted>, now: int, u: Uuid)
    requires CollisionFree(n) && Sound(n, g) && Adopted(n, g, records, adopted) && u in UpsertAll(g.entities, adopted, now)
    ensures EntityIs(g, records, now, u, UpsertAll(g.entities, adopted, now)[u])
    decreases |records|
  {
    hide Canon, NoOrphans, Closed, Unclashing, EntityIs, Upserted, UniqueNames, Placed, CollisionFree;
    if records == [] {
      Untouched(g, now, u);
    } else {
      var k := |records| - 1;
      var front, r := records[..k], records[k];
      var before := UpsertAll(g.entities, adopted[..k], now);
      assert records == front + [r] && adopted[k] == r.(uuid := Canon(n, g, r.key));
      if u in before {
        UpsertsAre(n, g, front, adopted[..k], now, u);
      }
      PlacedFirst(n, g);
      UpsertAllPlaced(n, g, front, adopted[..k], now);
      if u == adopted[k].uuid {
        SameName(n, g, front, adopted[..k], now, r, u);
        Renamed(g, front, r, before, now, u);
      } else {
        OtherName(n, g, before, r, u);
        NotRenamed(g, front, r, before, now, u);
      }
    }
  }

  lemma SameName(n: Naming, g: Graph, front: seq<Extracted>, adopted: seq<Extracted>, now: int, r: Extracted, u: Uuid)
    requires CollisionFree(n) && Sound(n, g) && Adopted(n, g, front, adopted) && u == Canon(n, g, r.key)
    ensures var before := UpsertAll(g.entities, adopted, now);
      if u in before then before[u].key == r.key else u !in g.entities && forall x :: x in front ==> x.key != r.key
  {
    hide Canon, NoOrphans, Closed, Unclashing, UniqueNames, CollisionFree;
    var before := UpsertAll(g.entities, adopted, now);
    PlacedFirst(n, g);
    UpsertAllPlaced(n, g, front, adopted, now);
    if u in before {
      CanonInjective(n, g, before[u].key, r.key);
    } else {
      forall x | x in front
        ensures x.key != r.key
      {
        var i :| 0 <= i < |front| && front[i] == x;
        assert adopted[i].uuid == Canon(n, g, x.key);
      }
    }
  }

  lemma OtherName(n: Naming, g: Graph, before: map<Uuid, Entity>, r: Extracted, u: Uuid)
    requires Placed(n, g, before) && u in before && u != Canon(n, g, r.key)
    ensures before[u].key != r.key
  {
    hide Canon;
  }

  lemma Untouched(g: Graph, now: int, u: Uuid)
    requires u in g.entities
    ensures EntityIs(g, [], now, u, g.entities[u])
  {
  }

  lemma NotRenamed(g: Graph, front: seq<Extracted>, r: Extracted, before: map<Uuid, Entity>, now: int, u: Uuid)
    requires u in before && before[u].key != r.key && EntityIs(g, front, now, u, before[u])
    ensures EntityIs(g, front + [r], now, u, before[u])
  {
    hide LastNamed, LastDescribed;
    var e, all := before[u], front + [r];
    assert forall x :: x in all <==> x in front || x == r;
    LastOnes(front, r, e.key);
    if exists x :: x in front && x.key == e.key {
      var i: nat :| LastNamed(front, i, e.key) && e.name == front[i].name;
      assert LastNamed(all, i, e.key) && e.name == all[i].name;
      Described(g, front, r, e.key, u, e.description);
    }
  }

  lemma LastOnes(front: seq<Extracted>, r: Extracted, key: Text)
    ensures var all := front + [r];
      && (forall i: nat :: LastNamed(all, i, key) <==> if r.key == key then i == |front| else LastNamed(front, i, key))
      && (forall i: nat :: LastDescribed(all, i, key) <==> if r.key == key && r.description != [] then i == |front| else LastDescribed(front, i, key))
      && (forall i: nat :: LastNamed(front, i, key) || LastDescribed(front, i, key) ==> i < |front| && all[i] == front[i])
  {
    var all := front + [r];
    forall i: nat
      ensures LastNamed(all, i, key) <==> if r.key == key then i == |front| else LastNamed(front, i, key)
      ensures LastDescribed(all, i, key) <==> if r.key == key && r.description != [] then i == |front| else LastDescribed(front, i, key)
    {
      LastNamedMore(front, r, i, key);
      LastDescribedMore(front, r, i, key);
    }
  }

  lemma Described(g: Graph, front: seq<Extracted>, r: Extracted, key: Text, u: Uuid, d: Text)
    requires DescriptionIs(g, front, key, u, d)
    ensures DescriptionIs(g, front + [r], key, u, if r.key == key && r.description != [] then r.description else d)
  {
    hide LastDescribed;
    var all := front + [r];
    LastOnes(front, r, key);
    if r.key == key && r.description != [] {
      assert LastDescribed(all, |front|, key) && all[|front|] == r;
    } else if i: nat :| LastDescribed(front, i, key) && d == front[i].description {
      assert LastDescribed(all, i, key);
    }
  }

  lemma StoredDescription(g: Graph, records: seq<Extracted>, key: Text, u: Uuid)
    requires forall r :: r in records ==> r.key != key
    ensures DescriptionIs(g, records, key, u, if u in g.entities then g.entities[u].description else [])
  {
  }

  lemma Renamed(g: Graph, front: seq<Extracted>, r: Extracted, before: map<Uuid, Entity>, now: int, u: Uuid)
    requires if u in before then before[u].key == r.key && EntityIs(g, front, now, u, before[u])
             else u !in g.entities && forall x :: x in front ==> x.key != r.key
    ensures EntityIs(g, front + [r], now, u, Upserted(before, r.(uuid := u), now))
  {
    hide LastNamed, LastDescribed, DescriptionIs;
    var all := front + [r];
    assert r in all;
    LastOnes(front, r, r.key);
    assert LastNamed(all, |front|, r.key) && all[|front|] == r;
    var d := if u in before then before[u].description else [];
    if forall x :: x in front ==> x.key != r.key {
      StoredDescription(g, front, r.key, u);
    }
    assert DescriptionIs(g, front, r.key, u, d);
    Described(g, front, r, r.key, u, d);
  }

  // ----- the two transactions

  /** What an accepted extraction leaves: the edges of other sources as they were, this source's as extracted; of
      entities exactly the endpoints, each as the records say; the job done and gone. */
  lemma FinishedExactly(n: Naming, g: Graph, content: Uuid, hash: Text, records: seq<Extracted>, edges: seq<Edge>, now: int, h: Graph)
    requires CollisionFree(n) && Sound(n, g) && Batch(n, content, records, edges) && Finishes(n, g, content, hash, records, edges, now, h)
    requires content in g.jobs && g.jobs[content].hash == hash
    ensures forall s: Stored :: s.source != content ==> (s in h.edges <==> s in g.edges)
    ensures forall m :: Stored(content, m) in h.edges <==> exists e :: e in edges && EdgeMoved(n, g, content, records, e, m)
    ensures forall u :: u in h.entities <==> !n.isContent(u) && exists s :: s in h.edges && (s.edge.src == u || s.edge.dst == u)
    ensures forall u :: u in h.entities ==> EntityIs(g, records, now, u, h.entities[u])
    ensures h.done == g.done[content := g.jobs[content]] && h.jobs == g.jobs - {content}
  {
    hide CollisionFree, Sound, Remap, Known, EdgeMoved, UpsertAll, EndpointsOf, Adopted, EntityIs;
    FinishKeeps(n, g, content, hash, records, edges, now, h);
    var adopted: seq<Extracted>, moved: seq<Edge> :|
      && Adopted(n, g, records, adopted) && AllMoved(n, g, records, edges, moved)
      && h.edges == EdgesWithout(g.edges, content) + (set e | e in moved :: Stored(content, e))
      && h.entities == Swept(UpsertAll(g.entities, adopted, now), h.edges,
                             EndpointsOf(g.edges, content) + (set r | r in adopted :: r.uuid));
    forall m
      ensures Stored(content, m) in h.edges <==> exists e :: e in edges && EdgeMoved(n, g, content, records, e, m)
    {
      EdgesMoved(n, g, content, records, edges, moved, m);
    }
    EntitiesAreEndpoints(n, h);
    forall u | u in h.entities
      ensures EntityIs(g, records, now, u, h.entities[u])
    {
      UpsertsAre(n, g, records, adopted, now, u);
    }
  }

  lemma EdgesMoved(n: Naming, g: Graph, content: Uuid, records: seq<Extracted>, edges: seq<Edge>, moved: seq<Edge>, m: Edge)
    requires CollisionFree(n) && Sound(n, g) && Batch(n, content, records, edges) && AllMoved(n, g, records, edges, moved)
    ensures m in moved <==> exists e :: e in edges && EdgeMoved(n, g, content, records, e, m)
  {
    hide CollisionFree, Sound, Known, EdgeMoved, Moved;
    forall e | e in edges
      ensures EdgeMoved(n, g, content, records, e, m) <==> m == Moved(n, g, records, e)
    {
      MovedIs(n, g, content, records, e);
    }
    if m in moved {
      var i :| 0 <= i < |moved| && moved[i] == m;
      assert edges[i] in edges;
    }
    if e :| e in edges && EdgeMoved(n, g, content, records, e, m) {
      var i :| 0 <= i < |edges| && edges[i] == e;
      assert moved[i] == m;
    }
  }

  lemma EntitiesAreEndpoints(n: Naming, h: Graph)
    requires Sound(n, h)
    ensures forall u :: u in h.entities <==> !n.isContent(u) && exists s :: s in h.edges && (s.edge.src == u || s.edge.dst == u)
  {
    forall u
      ensures u in h.entities <==> !n.isContent(u) && exists s :: s in h.edges && (s.edge.src == u || s.edge.dst == u)
    {
      if u in h.entities {
        assert Endpoint(h.edges, u);
      }
      if !n.isContent(u) {
        if s :| s in h.edges && (s.edge.src == u || s.edge.dst == u) {
          assert Touches(s.edge, u) && n.isContent(s.source);
        }
      }
    }
  }

  /** Forgetting a source leaves the edges of the others, their endpoints as they were, and nothing else. */
  lemma ForgottenExactly(n: Naming, g: Graph, source: Uuid)
    requires Sound(n, g)
    ensures var h := Forgotten(g, source);
      && (forall s :: s in h.edges <==> s in g.edges && s.source != source)
      && (forall u :: u in h.entities <==> !n.isContent(u) && exists s :: s in h.edges && (s.edge.src == u || s.edge.dst == u))
      && (forall u :: u in h.entities ==> u in g.entities && h.entities[u] == g.entities[u])
      && h.done == g.done - {source} && h.jobs == g.jobs - {source}
  {
    hide Sound;
    ForgetKeeps(n, g, source);
    EntitiesAreEndpoints(n, Forgotten(g, source));
  }

  /** A reconcile queues exactly the documents not extracted at their hash, and reports exactly the sources that left
      something behind and are gone. */
  lemma QueuedExactly(g: Graph, docs: map<Uuid, Text>, seqno: int)
    ensures forall c :: c in Queued(g, docs, seqno) <==> c in docs && (c in g.done ==> g.done[c].hash != docs[c])
    ensures forall c :: c in Queued(g, docs, seqno) ==> Queued(g, docs, seqno)[c] == Progress(docs[c], seqno)
    ensures forall c :: c in StaleSources(g, docs) <==> c !in docs && (c in g.done || exists s :: s in g.edges && s.source == c)
  {
  }

  // ----- what an extraction asks for

  const MENTIONED: Text := [109, 101, 110, 116, 105, 111, 110, 115]

  /** An extracted name that can be kept: visible, and of at most 200 characters. */
  predicate Nameable(u: Unicode, name: Text) { u.trim(name) != [] && u.chars(u.trim(name)) <= 200 }

  /** Some extracted entity has this name, whatever its case. */
  predicate Extracts(u: Unicode, x: Extraction, key: Text) {
    exists e :: e in x.entities && Nameable(u, e.name) && u.lower(u.trim(e.name)) == key
  }

  lemma {:induction false} RecordsAre(n: Naming, u: Unicode, es: seq<Named>)
    ensures forall r :: r in RecordsOf(n, u, es) <==> exists e :: e in es && Nameable(u, e.name) && r == RecordOf(n, u, e)
  {
    hide RecordOf;
    if es != [] {
      var front, last := es[..|es| - 1], es[|es| - 1];
      RecordsAre(n, u, front);
      assert forall e :: e in es <==> e in front || e == last;
    }
  }

  /** The record of a named entity: trimmed, under its lower-case name. */
  lemma RecordOfOne(n: Naming, u: Unicode, e: Named)
    ensures var name := u.trim(e.name);
      RecordsOf(n, u, [e])
      == if Nameable(u, e.name) then
           [Extracted(n.derive(u.lower(name)), name, u.lower(name), if e.description.Some? then u.trim(e.description.value) else [])]
         else []
  {
    assert RecordsOf(n, u, [e][..0]) == [];
  }

  /** Records come in the order of the entities. */
  lemma {:induction false} RecordsAppend(n: Naming, u: Unicode, a: seq<Named>, b: seq<Named>)
    ensures RecordsOf(n, u, a + b) == RecordsOf(n, u, a) + RecordsOf(n, u, b)
  {
    hide RecordOf;
    if b == [] {
      assert a + b == a;
    } else {
      RecordsAppend(n, u, a, b[..|b| - 1]);
      assert (a + b)[..|a + b| - 1] == a + b[..|b| - 1];
    }
  }

  lemma NamesAre(n: Naming, u: Unicode, x: Extraction, key: Text)
    ensures Names(RecordsOf(n, u, x.entities), key) <==> Extracts(u, x, key)
  {
    RecordsAre(n, u, x.entities);
    if e :| e in x.entities && Nameable(u, e.name) && u.lower(u.trim(e.name)) == key {
      assert RecordOf(n, u, e) in RecordsOf(n, u, x.entities);
    }
  }

  /** The edges asked for: the content mentions each named entity, and each relation between two of them with a usable
      kind, under the prefix `ai:`. */
  lemma DesiredExactly(n: Naming, u: Unicode, content: Uuid, x: Extraction, e: Edge)
    ensures Desired(n, u, content, x, e) <==>
              || (e.src == content && e.kind == MENTIONED && exists key :: Extracts(u, x, key) && e.dst == n.derive(key))
              || (exists r :: r in x.relations && AsksFor(n, u, x, r, e))
  {
    hide Names, Extracts;
    var records := RecordsOf(n, u, x.entities);
    RecordsDerived(n, u, x.entities);
    RecordsAre(n, u, x.entities);
    forall key
      ensures Names(records, key) <==> Extracts(u, x, key)
    {
      NamesAre(n, u, x, key);
    }
    forall r
      ensures Usable(n, u, records, r) && e == RelationEdge(n, u, r) <==> AsksFor(n, u, x, r, e)
    {
    }
    MentionsAre(n, u, content, x, e);
  }

  predicate AsksFor(n: Naming, u: Unicode, x: Extraction, r: Relation, e: Edge) {
    var a, b, kind := u.lower(u.trim(r.src)), u.lower(u.trim(r.dst)), u.lower(u.trim(r.kind));
    && Extracts(u, x, a) && Extracts(u, x, b) && n.derive(a) != n.derive(b) && kind != [] && u.chars(kind) <= 64
    && e == Edge(n.derive(a), n.derive(b), [97, 105, 58] + kind)
  }

  lemma MentionsAre(n: Naming, u: Unicode, content: Uuid, x: Extraction, e: Edge)
    ensures Mention(content, RecordsOf(n, u, x.entities), e) <==>
              e.src == content && e.kind == MENTIONED && exists key :: Extracts(u, x, key) && e.dst == n.derive(key)
  {
    hide Names, Extracts;
    var records := RecordsOf(n, u, x.entities);
    RecordsDerived(n, u, x.entities);
    if r :| r in records && e == Edge(content, r.uuid, MENTIONS) {
      assert Names(records, r.key) by { NamedIn(records, r); }
      NamesAre(n, u, x, r.key);
    }
    if key :| Extracts(u, x, key) && e.dst == n.derive(key) {
      NamesAre(n, u, x, key);
      if e.src == content && e.kind == MENTIONED {
        var r := RecordNamed(records, key);
        assert r.uuid == n.derive(key);
      }
    }
  }

  lemma NamedIn(records: seq<Extracted>, r: Extracted)
    requires r in records
    ensures Names(records, r.key)
  {
  }

  lemma RecordNamed(records: seq<Extracted>, key: Text) returns (r: Extracted)
    requires Names(records, key)
    ensures r in records && r.key == key
  {
    r :| r in records && r.key == key;
  }
}
