/** What `crates/ink-format/src/snapshot.rs` demands of a complete snapshot. */
module SnapshotSpec {
  import opened Bytes
  import opened Results
  import opened Fields
  import opened Lists
  import opened Records
  import opened Bodies
  import opened Geometries
  import opened Profiles
  import opened Documents
  import opened TypedRecords
  import C = ChunkFormat

  /** What lies outside the repository: the chunk platform, binary64 comparison and SHA-256. */
  datatype World = World(pf: C.Platform, arith: Arith, sha: seq<Byte> -> Hash)

  datatype Snapshot = Snapshot(root: Record, records: map<Id, Record>, chunks: map<Id, seq<Byte>>,
                               resources: map<Hash, seq<Byte>>)

  /** The length a dependency path may have: a first record and 64 steps. */
  const LONGEST_PATH: nat := 65

  // ----- typed reads

  function ReadDocument(w: World, r: Record): Result<Document> { var t :- Read(DOCUMENT, r, w.arith); Ok(t.document) }
  function ReadPage(w: World, r: Record): Result<Page> { var t :- Read(PAGE, r, w.arith); Ok(t.page) }
  function ReadStroke(w: World, r: Record): Result<Stroke> { var t :- Read(STROKE, r, w.arith); Ok(t.stroke) }
  function ReadGeometry(w: World, r: Record): Result<Geometry> { var t :- Read(GEOMETRY, r, w.arith); Ok(t.geometry) }
  function ReadProfile(w: World, r: Record): Result<SourceProfile> { var t :- Read(SOURCE_PROFILE, r, w.arith); Ok(t.profile) }
  function ReadSession(w: World, r: Record): Result<Session> { var t :- Read(SESSION, r, w.arith); Ok(t.session) }
  function ReadBrush(w: World, r: Record): Result<Brush> { var t :- Read(BRUSH, r, w.arith); Ok(t.brush) }

  /** `Snapshot::get`. */
  function Get(s: Snapshot, id: Id): Result<Record> { if id in s.records then Ok(s.records[id]) else Err(InvalidData) }

  function StrokeAt(w: World, s: Snapshot, id: Id): Result<Stroke> { var r :- Get(s, id); ReadStroke(w, r) }
  function GeometryAt(w: World, s: Snapshot, id: Id): Result<Geometry> { var r :- Get(s, id); ReadGeometry(w, r) }
  function ProfileAt(w: World, s: Snapshot, id: Id): Result<SourceProfile> { var r :- Get(s, id); ReadProfile(w, r) }
  function SessionAt(w: World, s: Snapshot, id: Id): Result<Session> { var r :- Get(s, id); ReadSession(w, r) }
  function BrushAt(w: World, s: Snapshot, id: Id): Result<Brush> { var r :- Get(s, id); ReadBrush(w, r) }
  function PageAt(w: World, s: Snapshot, id: Id): Result<Page> { var r :- Get(s, id); ReadPage(w, r) }

  // ----- one record

  predicate PlacedObject(w: World, s: Snapshot, o: ObjectRef) {
    StrokeAt(w, s, o.recordId).Ok? && StrokeAt(w, s, o.recordId).value.id == o.objectId
  }

  predicate PageFits(w: World, s: Snapshot, r: Record) {
    ReadPage(w, r).Ok? &&
    var p := ReadPage(w, r).value;
    p.recognition == [] && p.corrections == [] && forall o :: o in p.objects ==> PlacedObject(w, s, o)
  }

  predicate StrokeFits(w: World, s: Snapshot, r: Record) {
    ReadStroke(w, r).Ok? &&
    var stroke := ReadStroke(w, r).value;
    GeometryAt(w, s, stroke.geometry).Ok? && BrushAt(w, s, stroke.brush).Ok?
  }

  predicate GeometryFits(w: World, s: Snapshot, r: Record) {
    ReadGeometry(w, r).Ok? &&
    var g := ReadGeometry(w, r).value;
    ProfileAt(w, s, g.profile).Ok? &&
    (g.timing.Some? ==>
       SessionAt(w, s, g.timing.value.session).Ok? &&
       ProfileAt(w, s, g.profile).value.tickNs == Some(SessionAt(w, s, g.timing.value.session).value.tickNs))
  }

  /** The body reads as its kind and every reference in it resolves to a record of the right kind. */
  predicate BodyFits(w: World, s: Snapshot, r: Record) {
    if r.kind == PAGE then PageFits(w, s, r)
    else if r.kind == STROKE then StrokeFits(w, s, r)
    else if r.kind == GEOMETRY then GeometryFits(w, s, r)
    else if r.kind == SOURCE_PROFILE then ReadProfile(w, r).Ok?
    else if r.kind == BRUSH then ReadBrush(w, r).Ok?
    else r.kind == SESSION && ReadSession(w, r).Ok?
  }

  predicate NodeFits(w: World, s: Snapshot, r: Record) {
    (forall h :: h in r.resources ==> h in s.resources) && BodyFits(w, s, r)
  }

  // ----- the dependency graph

  ghost predicate Path(s: Snapshot, p: seq<Id>) {
    && p != [] && p[0] in s.root.dependencies
    && (forall i :: 0 <= i < |p| - 1 ==> p[i] in s.records && p[i + 1] in s.records[p[i]].dependencies)
  }

  ghost predicate Reachable(s: Snapshot, x: Id) { exists p :: Path(s, p) && p[|p| - 1] == x }

  /** A path that returns to a record it went through, or goes on for more than 64 steps. */
  ghost predicate TooDeep(p: seq<Id>) {
    p != [] && (p[|p| - 1] in p[..|p| - 1] || |p| > LONGEST_PATH)
  }

  ghost predicate Broken(w: World, s: Snapshot, x: Id) { x !in s.records || !NodeFits(w, s, s.records[x]) }

  /** Every record of the list depends only on earlier ones. */
  ghost predicate Topological(s: Snapshot, order: seq<Id>) {
    && (forall i :: 0 <= i < |order| ==> order[i] in s.records)
    && (forall i, j :: 0 <= i < j < |order| ==> order[i] != order[j])
    && (forall i, d :: 0 <= i < |order| && d in s.records[order[i]].dependencies ==> d in order[..i])
  }

  ghost predicate Closed(s: Snapshot) {
    && (forall d :: d in s.root.dependencies ==> d in s.records)
    && (forall x, d :: x in s.records && d in s.records[x].dependencies ==> d in s.records)
  }

  /** Along a dependency path the position in a topological order falls: no path meets a record twice. */
  lemma {:induction false} OrderFalls(s: Snapshot, order: seq<Id>, p: seq<Id>, i: nat, j: nat) returns (a: nat, b: nat)
    requires Topological(s, order) && (forall x :: x in s.records ==> x in order) && Closed(s)
    requires Path(s, p) && i < j < |p|
    ensures b < a < |order| && order[a] == p[i] && order[b] == p[j]
    decreases j
  {
    PathWithin(s, p, i);
    PathWithin(s, p, j);
    if i + 1 == j {
      a :| 0 <= a < |order| && order[a] == p[i];
      b :| 0 <= b < |order[..a]| && order[..a][b] == p[j];
    } else {
      var m: nat;
      a, m := OrderFalls(s, order, p, i, j - 1);
      PathWithin(s, p, j - 1);
      b :| 0 <= b < |order[..m]| && order[..m][b] == p[j];
    }
  }

  lemma {:induction false} PathWithin(s: Snapshot, p: seq<Id>, i: nat)
    requires Closed(s) && Path(s, p) && i < |p|
    ensures p[i] in s.records
  {
    if i > 0 {
      PathWithin(s, p, i - 1);
    }
  }

  lemma NoRepetition(s: Snapshot, order: seq<Id>, p: seq<Id>)
    requires Topological(s, order) && (forall x :: x in s.records ==> x in order) && Closed(s) && Path(s, p)
    ensures forall i, j :: 0 <= i < j < |p| ==> p[i] != p[j]
  {
    forall i, j | 0 <= i < j < |p|
      ensures p[i] != p[j]
    {
      var a, b := OrderFalls(s, order, p, i, j);
    }
  }

  // ----- catalogs as maps

  function Entries<K(==), V>(s: seq<Pair<K, V>>): map<K, V> {
    if s == [] then map[] else Entries(s[1..])[s[0].key := s[0].val]
  }

  lemma {:induction false} EntryKeys<K(!new), V>(s: seq<Pair<K, V>>)
    ensures forall e :: e in s ==> e.key in Entries(s)
    ensures forall k :: k in Entries(s) ==> exists e :: e in s && e.key == k
  {
    if s != [] {
      EntryKeys(s[1..]);
      assert s[0] in s && forall e :: e in s ==> e == s[0] || e in s[1..];
    }
  }

  /** The entries of a catalog are as many as its keys. */
  lemma {:induction false} CatalogSize<K(!new), V>(s: seq<Pair<K, V>>, keys: Keys<K>)
    requires Catalog(s, keys) && forall a, b :: keys.lt(a, b) ==> a != b
    ensures |Entries(s)| == |s|
  {
    if s != [] {
      var rest := s[1..];
      assert forall i :: 0 <= i < |rest| ==> rest[i] == s[i + 1];
      CatalogSize(rest, keys);
      EntryKeys(rest);
      assert s[0].key !in Entries(rest);
      assert Entries(s).Keys == Entries(rest).Keys + {s[0].key};
    }
  }

  /** A subset of the same size is the whole set: what each size comparison of the validator proves. */
  lemma {:induction false} SameSize<T>(a: set<T>, b: set<T>)
    requires a <= b && |a| == |b|
    ensures a == b
  {
    if x :| x in b && x !in a {
      assert a <= b - {x};
      Smaller(a, b - {x});
    }
  }

  lemma {:induction false} Smaller<T>(a: set<T>, b: set<T>)
    requires a <= b
    ensures |a| <= |b|
    decreases |a|
  {
    if a != {} {
      var x :| x in a;
      Smaller(a - {x}, b - {x});
    }
  }

  // ----- integrity of the catalogs

  predicate Matches(w: World, bytes: seq<Byte>, blob: BlobRef) {
    blob.length == |bytes| && blob.hash == w.sha(bytes)
  }

  predicate Supported(r: Record, supported: seq<U64>) { forall f :: f in r.features ==> f in supported }

  predicate RootFits(w: World, s: Snapshot, supported: seq<U64>) {
    EncodeRecord(s.root).Ok? && Supported(s.root, supported) && ReadDocument(w, s.root).Ok?
  }

  predicate RecordMatches(w: World, s: Snapshot, doc: Document, supported: seq<U64>, id: Id)
    requires id in s.records
  {
    var r, catalog := s.records[id], Entries(doc.records);
    && r.id == id && Supported(r, supported) && id in catalog
    && EncodeRecord(r).Ok? && Matches(w, EncodeRecord(r).value, catalog[id])
  }

  predicate ResourceMatches(w: World, s: Snapshot, doc: Document, h: Hash)
    requires h in s.resources
  {
    var catalog := Entries(doc.resources);
    h in catalog && catalog[h] == |s.resources[h]| && w.sha(s.resources[h]) == h
  }

  predicate ChunkMatches(w: World, s: Snapshot, doc: Document, id: Id)
    requires id in s.chunks
  {
    var catalog := Entries(doc.chunks);
    && id in catalog && Matches(w, s.chunks[id], catalog[id])
    && C.Decode(w.pf, s.chunks[id]).Ok? && C.Decode(w.pf, s.chunks[id]).value.id == id
  }

  /** The catalogs of the document are exactly the stored records, chunks and resources, byte for byte. */
  ghost predicate CatalogsExact(w: World, s: Snapshot, doc: Document, supported: seq<U64>) {
    && s.root.id !in s.records
    && Entries(doc.records).Keys == s.records.Keys
    && Entries(doc.chunks).Keys == s.chunks.Keys
    && Entries(doc.resources).Keys == s.resources.Keys
    && (forall id :: id in s.records ==> RecordMatches(w, s, doc, supported, id))
    && (forall h :: h in s.resources ==> ResourceMatches(w, s, doc, h))
    && (forall id :: id in s.chunks ==> ChunkMatches(w, s, doc, id))
  }

  predicate PlacedPage(w: World, s: Snapshot, o: ObjectRef) {
    PageAt(w, s, o.recordId).Ok? && PageAt(w, s, o.recordId).value.id == o.objectId
  }

  ghost predicate Referenced(s: Snapshot, h: Hash) {
    h in s.root.resources || exists x :: x in s.records && h in s.records[x].resources
  }

  /** The metadata graph: pages in place, every record sound and reachable, every dependency and every
      resource present, and no resource without a reference. */
  ghost predicate MetadataExact(w: World, s: Snapshot, doc: Document) {
    && (forall o :: o in doc.pages ==> PlacedPage(w, s, o))
    && Closed(s)
    && (forall x :: x in s.records ==> NodeFits(w, s, s.records[x]) && Reachable(s, x))
    && (forall h :: Referenced(s, h) <==> h in s.resources)
  }
}
