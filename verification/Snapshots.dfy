/** `Snapshot::validate` of `crates/ink-format/src/snapshot.rs`, as it runs and as what it proves. */
module Snapshots {
  import opened Results
  import opened Fields
  import opened Lists
  import opened Records
  import opened Geometries
  import opened Profiles
  import opened Documents
  import opened TypedRecords
  import opened SnapshotSpec
  import opened FirstPaths
  import opened SnapshotGraph
  import opened SnapshotTicks
  import C = ChunkFormat
  import F = ChunkFacts

  // ----- what acceptance means

  function DecodedChunks(w: World, s: Snapshot): map<Id, C.Chunk> {
    map id | id in s.chunks && C.Decode(w.pf, s.chunks[id]).Ok? :: C.Decode(w.pf, s.chunks[id]).value
  }

  function StoreOf(w: World, s: Snapshot, doc: Document): Store { Store(Entries(doc.segments), DecodedChunks(w, s)) }

  predicate GeometrySound(w: World, s: Snapshot, st: Store, r: Record) {
    ReadGeometry(w, r).Ok? &&
    var g := ReadGeometry(w, r).value;
    ProfileAt(w, s, g.profile).Ok? && st.Samples(g, ProfileAt(w, s, g.profile).value)
  }

  ghost predicate GeometriesSound(w: World, s: Snapshot, st: Store) {
    forall x :: x in s.records && s.records[x].kind == GEOMETRY ==> GeometrySound(w, s, st, s.records[x])
  }

  ghost predicate UsesSegment(w: World, r: Record, segment: Id) {
    r.kind == GEOMETRY && ReadGeometry(w, r).Ok? && exists p :: p in ReadGeometry(w, r).value.parts && p.segment == segment
  }

  ghost predicate SegmentUsed(w: World, s: Snapshot, segment: Id) {
    exists x :: x in s.records && UsesSegment(w, s.records[x], segment)
  }

  ghost predicate ChunkUsed(st: Store, chunk: Id) { exists x :: x in st.segments && st.segments[x].chunk == chunk }

  /** The catalogued segments are exactly those used by geometry, the chunks exactly those holding them. */
  ghost predicate SegmentsExact(w: World, s: Snapshot, st: Store) {
    && (forall x :: x in st.segments <==> SegmentUsed(w, s, x))
    && (forall c :: c in s.chunks <==> ChunkUsed(st, c))
  }

  ghost predicate Exact(w: World, s: Snapshot, supported: seq<U64>) {
    RootFits(w, s, supported) &&
    var doc := ReadDocument(w, s.root).value;
    && CatalogsExact(w, s, doc, supported) && MetadataExact(w, s, doc)
    && GeometriesSound(w, s, StoreOf(w, s, doc)) && SegmentsExact(w, s, StoreOf(w, s, doc))
  }

  ghost predicate Ordered(s: Snapshot, order: seq<Id>) {
    Topological(s, order) && forall x :: x in s.records ==> x in order
  }

  ghost predicate Acyclic(s: Snapshot) { exists order :: Ordered(s, order) }

  // ----- the catalogs

  method CheckRecords(w: World, s: Snapshot, doc: Document, supported: seq<U64>) returns (ok: bool)
    ensures ok <==> forall id :: id in s.records ==> RecordMatches(w, s, doc, supported, id)
  {
    hide RecordMatches;
    var todo := s.records.Keys;
    while todo != {}
      invariant todo <= s.records.Keys
      invariant forall id :: id in s.records && id !in todo ==> RecordMatches(w, s, doc, supported, id)
    {
      var id :| id in todo;
      if !RecordMatches(w, s, doc, supported, id) {
        return false;
      }
      todo := todo - {id};
    }
    ok := true;
  }

  method CheckResources(w: World, s: Snapshot, doc: Document) returns (ok: bool)
    ensures ok <==> forall h :: h in s.resources ==> ResourceMatches(w, s, doc, h)
  {
    hide ResourceMatches;
    var todo := s.resources.Keys;
    while todo != {}
      invariant todo <= s.resources.Keys
      invariant forall h :: h in s.resources && h !in todo ==> ResourceMatches(w, s, doc, h)
    {
      var h :| h in todo;
      if !ResourceMatches(w, s, doc, h) {
        return false;
      }
      todo := todo - {h};
    }
    ok := true;
  }

  method DecodeChunks(w: World, s: Snapshot, doc: Document) returns (ok: bool, decoded: map<Id, C.Chunk>)
    ensures ok <==> forall id :: id in s.chunks ==> ChunkMatches(w, s, doc, id)
    ensures ok ==> decoded == DecodedChunks(w, s) && decoded.Keys == s.chunks.Keys
  {
    hide C.Decode, Matches, Entries;
    decoded := map[];
    var todo := s.chunks.Keys;
    while todo != {}
      invariant todo <= s.chunks.Keys && decoded.Keys == s.chunks.Keys - todo
      invariant forall id :: id in decoded ==>
        C.Decode(w.pf, s.chunks[id]) == Ok(decoded[id]) && ChunkMatches(w, s, doc, id)
    {
      var id :| id in todo;
      if !ChunkMatches(w, s, doc, id) {
        return false, decoded;
      }
      decoded := decoded[id := C.Decode(w.pf, s.chunks[id]).value];
      todo := todo - {id};
    }
    ok := true;
  }

  // ----- the metadata graph

  method CheckPages(w: World, s: Snapshot, doc: Document) returns (ok: bool)
    ensures ok <==> forall o :: o in doc.pages ==> PlacedPage(w, s, o)
  {
    hide PlacedPage;
    for i := 0 to |doc.pages|
      invariant forall o :: o in doc.pages[..i] ==> PlacedPage(w, s, o)
    {
      if !PlacedPage(w, s, doc.pages[i]) {
        assert doc.pages[i] in doc.pages;
        return false;
      }
      assert doc.pages[..i + 1] == doc.pages[..i] + [doc.pages[i]];
    }
    assert doc.pages[..|doc.pages|] == doc.pages;
    ok := true;
  }

  method CollectResources(s: Snapshot) returns (all: set<Hash>)
    ensures forall h :: h in all <==> Referenced(s, h)
  {
    all := set h | h in s.root.resources;
    var todo := s.records.Keys;
    while todo != {}
      invariant todo <= s.records.Keys
      invariant forall h :: h in all <==>
        h in s.root.resources || exists x :: x in s.records && x !in todo && h in s.records[x].resources
    {
      var id :| id in todo;
      all := all + set h | h in s.records[id].resources;
      todo := todo - {id};
    }
  }

  /** Once every root dependency is walked, whatever a path reaches is walked. */
  lemma {:induction false} PathsWalked(w: World, s: Snapshot, visited: set<Id>, order: seq<Id>, p: seq<Id>, i: nat)
    requires Walked(w, s, visited, order) && (forall d :: d in s.root.dependencies ==> d in visited)
    requires Path(s, p) && i < |p|
    ensures p[i] in visited
  {
    hide NodeFits;
    if i > 0 {
      PathsWalked(w, s, visited, order, p, i - 1);
      var k :| 0 <= k < |order| && order[k] == p[i - 1];
      assert p[i] in order[..k];
    }
  }

  lemma WalkedAll(w: World, s: Snapshot, doc: Document, visited: set<Id>, order: seq<Id>)
    requires Walked(w, s, visited, order) && (forall d :: d in s.root.dependencies ==> d in visited)
    ensures visited <= s.records.Keys
    ensures |visited| == |s.records.Keys| ==> visited == s.records.Keys && Closed(s) && Ordered(s, order)
    ensures |visited| == |s.records.Keys| ==> forall x :: x in s.records ==> NodeFits(w, s, s.records[x]) && Reachable(s, x)
    ensures |visited| != |s.records.Keys| ==> exists x :: x in s.records && !Reachable(s, x)
  {
    hide NodeFits, Path;
    if |visited| == |s.records.Keys| {
      SameSize(visited, s.records.Keys);
      forall x, d | x in s.records && d in s.records[x].dependencies
        ensures d in s.records
      {
        var k :| 0 <= k < |order| && order[k] == x;
        assert d in order[..k];
      }
    } else {
      var x := Missing(visited, s.records.Keys);
      if Reachable(s, x) {
        ReachableWalked(w, s, visited, order, x);
      }
    }
  }

  lemma Missing(a: set<Id>, b: set<Id>) returns (x: Id)
    requires a <= b && |a| != |b|
    ensures x in b && x !in a
  {
    assert a != b;
    x :| x in b && x !in a;
  }

  lemma ReachableWalked(w: World, s: Snapshot, visited: set<Id>, order: seq<Id>, x: Id)
    requires Walked(w, s, visited, order) && (forall d :: d in s.root.dependencies ==> d in visited) && Reachable(s, x)
    ensures x in visited
  {
    hide NodeFits, Walked;
    var p :| Path(s, p) && p[|p| - 1] == x;
    PathsWalked(w, s, visited, order, p, |p| - 1);
  }

  lemma NotEmpty(s: Snapshot, p: seq<Id>)
    requires Path(s, p)
    ensures p != []
  {
  }

  lemma FirstPath(s: Snapshot, d: Id)
    requires d in s.root.dependencies
    ensures Path(s, [] + [d])
  {
  }

  lemma BrokenSpoils(w: World, s: Snapshot, doc: Document, bad: seq<Id>)
    requires Path(s, bad) && Broken(w, s, bad[|bad| - 1])
    ensures !MetadataExact(w, s, doc)
  {
    hide NodeFits;
    if MetadataExact(w, s, doc) {
      PathWithin(s, bad, |bad| - 1);
    }
  }

  method WalkAll(w: World, s: Snapshot) returns (v: Verdict, visited: set<Id>, ghost order: seq<Id>, ghost bad: seq<Id>)
    ensures v.Accepted? ==> Walked(w, s, visited, order) && (forall d :: d in s.root.dependencies ==> d in visited)
    ensures v.Accepted? ==> AllBounded(s, [])
    ensures v.Deep? ==> First(s, bad) && TooDeep(bad)
    ensures v.Refused? ==> Path(s, bad) && Broken(w, s, bad[|bad| - 1])
  {
    hide NodeFits, Path, Walked, TooDeep, Broken, AtEdge, Bounded, AllBounded, First, Leads, Grew;
    var walk := new Walk(w, s);
    var roots := s.root.dependencies;
    bad := [];
    NothingGrew(s, {}, []);
    assert AtEdge(s, [], {}) by { NothingPassed(s); }
    for i := 0 to |roots|
      invariant walk.w == w && walk.s == s && walk.Valid() && walk.active == {}
      invariant Grew(s, {}, roots, i, walk.visited) && Bounded(s, [], i)
    {
      FirstPath(s, roots[i]);
      ghost var before := walk.visited;
      if roots[i] !in walk.visited {
        assert roots[i] !in roots[..i] by { GrewHas(s, {}, roots, i, walk.visited); }
        EdgeBehind(s, [], {}, i, walk.visited);
      }
      v, bad := walk.Visit(roots[i], 0, []);
      if !v.Accepted? {
        return v, {}, [], bad;
      }
      BoundedMore(s, [], {}, i, before);
      GrewMore(s, {}, roots, i, before, walk.visited);
    }
    BoundedAll(s, []);
    GrewHas(s, {}, roots, |roots|, walk.visited);
    assert roots[..|roots|] == roots;
    v, visited, order := Accepted, walk.visited, walk.order;
  }

  lemma NothingPassed(s: Snapshot)
    ensures AtEdge(s, [], {})
  {
  }

  /** `validate_metadata`. */
  method CheckMetadata(w: World, s: Snapshot, doc: Document) returns (v: Verdict, ghost order: seq<Id>, ghost bad: seq<Id>)
    ensures v.Accepted? ==> MetadataExact(w, s, doc) && Ordered(s, order) && AllBounded(s, [])
    ensures v.Deep? ==> First(s, bad) && TooDeep(bad)
    ensures v.Refused? ==> !MetadataExact(w, s, doc)
  {
    hide NodeFits, Path, Walked, TooDeep, Broken, Topological, PlacedPage, Closed, First, AllBounded;
    order, bad := [], [];
    var pages := CheckPages(w, s, doc);
    if !pages {
      return Refused, order, bad;
    }
    var visited;
    v, visited, order, bad := WalkAll(w, s);
    if v.Deep? {
      return;
    }
    if v.Refused? {
      NotEmpty(s, bad);
      BrokenSpoils(w, s, doc, bad);
      return;
    }
    WalkedAll(w, s, doc, visited, order);
    if |visited| != |s.records| {
      v := Refused;
      return;
    }
    var all := CollectResources(s);
    if |all| != |s.resources| || exists h :: h in all && h !in s.resources {
      assert all != s.resources.Keys;
      v := Refused;
      return;
    }
    SameSize(all, s.resources.Keys);
  }

  // ----- geometry

  lemma ReadCovers(w: World, r: Record)
    requires ReadGeometry(w, r).Ok?
    ensures Covered(ReadGeometry(w, r).value.parts, 0).Some?
  {
    var t := Read(GEOMETRY, r, w.arith).value;
    OfKind(GEOMETRY, r.body, w);
    hide Read;
    OkGeometry(r.body, w);
  }

  lemma OfKind(kind: U64, v: CborValue.Value, w: World)
    requires kind == GEOMETRY && BodyOf(kind, v, w.arith).Ok?
    ensures GeometryOf(v, w.arith).Ok? && BodyOf(kind, v, w.arith).value == OfGeometry(GeometryOf(v, w.arith).value)
  {
    hide GeometryOf;
  }

  lemma OkGeometry(v: CborValue.Value, w: World)
    requires GeometryOf(v, w.arith).Ok?
    ensures Covered(GeometryOf(v, w.arith).value.parts, 0).Some?
  {
    hide Covered, Body, ParseAll, TimingOf, Lookup;
  }

  lemma StoreSound(w: World, s: Snapshot, doc: Document)
    ensures StoreOf(w, s, doc).Sound()
  {
    hide C.Decode, F.ColumnsFit, Entries;
    forall id | id in DecodedChunks(w, s)
      ensures DecodedChunk(DecodedChunks(w, s)[id])
    {
      F.DecodedFits(w.pf, s.chunks[id]);
    }
  }

  method CheckGeometries(w: World, s: Snapshot, st: Store) returns (ok: bool, used: set<Id>)
    requires st.Sound()
    ensures ok <==> GeometriesSound(w, s, st)
    ensures ok ==> used <= st.segments.Keys && forall x :: x in used <==> SegmentUsed(w, s, x)
  {
    hide ReadGeometry, ProfileAt, Store.Samples, Store.Sound, Covered;
    used := {};
    var todo := s.records.Keys;
    while todo != {}
      invariant todo <= s.records.Keys && used <= st.segments.Keys
      invariant forall x :: x in s.records && x !in todo && s.records[x].kind == GEOMETRY ==> GeometrySound(w, s, st, s.records[x])
      invariant forall y :: y in used <==> exists x :: x in s.records && x !in todo && UsesSegment(w, s.records[x], y)
    {
      var id :| id in todo;
      var r := s.records[id];
      if r.kind == GEOMETRY {
        var g := ReadGeometry(w, r);
        if g.Err? {
          return false, used;
        }
        var profile := ProfileAt(w, s, g.value.profile);
        if profile.Err? {
          return false, used;
        }
        ReadCovers(w, r);
        ghost var before := used;
        ok, used := CheckParts(st, g.value, profile.value, used);
        if !ok {
          return;
        }
        forall y: Id | y in used && y !in before
          ensures UsesSegment(w, r, y)
        {
          assert y in used - before;
        }
        forall y: Id | UsesSegment(w, r, y)
          ensures y in used
        {
        }
      }
      todo := todo - {id};
    }
    ok := true;
  }

  lemma ChunksOfSegments(w: World, s: Snapshot, st: Store, x: Id)
    requires GeometriesSound(w, s, st) && SegmentUsed(w, s, x)
    ensures x in st.segments && st.segments[x].chunk in st.decoded
  {
    hide ReadGeometry, ProfileAt, Store.Fits;
    var y :| y in s.records && UsesSegment(w, s.records[y], x);
    var r := s.records[y];
    var g := ReadGeometry(w, r).value;
    var p :| p in g.parts && p.segment == x;
    var k :| 0 <= k < |g.parts| && g.parts[k] == p;
    FitsIsPlaced(st, g, ProfileAt(w, s, g.profile).value, g.parts[k]);
  }

  /** Geometry, and the two size comparisons that leave no segment and no chunk unused. */
  method CheckSegments(w: World, s: Snapshot, st: Store) returns (ok: bool)
    requires st.Sound() && st.decoded.Keys == s.chunks.Keys
    ensures ok <==> GeometriesSound(w, s, st) && SegmentsExact(w, s, st)
  {
    hide GeometriesSound, SegmentUsed, Store.Sound;
    var geometry, used := CheckGeometries(w, s, st);
    if !geometry {
      return false;
    }
    if |used| != |st.segments| {
      assert SegmentsExact(w, s, st) ==> st.segments.Keys == used;
      return false;
    }
    SameSize(used, st.segments.Keys);
    forall x | x in st.segments
      ensures st.segments[x].chunk in s.chunks
    {
      ChunksOfSegments(w, s, st, x);
    }
    var usedChunks := set x | x in st.segments :: st.segments[x].chunk;
    if |usedChunks| != |s.chunks| {
      assert SegmentsExact(w, s, st) ==> usedChunks == s.chunks.Keys;
      return false;
    }
    SameSize(usedChunks, s.chunks.Keys);
    ok := true;
  }

  // ----- the whole validator

  /** Accepts exactly the exact snapshots in which no record's first path is too deep, all of them acyclic; complains of
      cycles or depth only with such a first path at hand; refuses for any other reason only what is not exact. */
  method Validate(w: World, s: Snapshot, supported: seq<U64>) returns (v: Verdict, ghost bad: seq<Id>)
    ensures v.Accepted? <==> Exact(w, s, supported) && forall p :: First(s, p) ==> !TooDeep(p)
    ensures v.Accepted? ==> Acyclic(s)
    ensures v.Deep? ==> First(s, bad) && TooDeep(bad)
    ensures v.Refused? ==> !Exact(w, s, supported)
  {
    hide EncodeRecord, ReadDocument, RecordMatches, ResourceMatches, ChunkMatches, MetadataExact, Path, TooDeep, First, AllBounded,
         Ordered, GeometrySound, Entries, UsesSegment, Store.Sound, DecodedChunks, Supported;
    bad := [];
    if EncodeRecord(s.root).Err? || !Supported(s.root, supported) || ReadDocument(w, s.root).Err? {
      return Refused, bad;
    }
    var doc := ReadDocument(w, s.root).value;
    if s.root.id in s.records || |Entries(doc.records)| != |s.records| || |Entries(doc.chunks)| != |s.chunks|
       || |Entries(doc.resources)| != |s.resources| {
      SizesDiffer(w, s, doc, supported);
      return Refused, bad;
    }
    var records := CheckRecords(w, s, doc, supported);
    if !records {
      return Refused, bad;
    }
    var resources := CheckResources(w, s, doc);
    if !resources {
      return Refused, bad;
    }
    var chunks, decoded := DecodeChunks(w, s, doc);
    if !chunks {
      return Refused, bad;
    }
    CatalogsAgree(w, s, doc, supported);
    ghost var order;
    v, order, bad := CheckMetadata(w, s, doc);
    if !v.Accepted? {
      return;
    }
    var st := Store(Entries(doc.segments), decoded);
    StoreSound(w, s, doc);
    var sound := CheckSegments(w, s, st);
    v := if sound then Accepted else Refused;
    FirstPathsPass(w, s, doc, order);
  }

  /** Accepted metadata has no first path that is too deep. */
  lemma FirstPathsPass(w: World, s: Snapshot, doc: Document, order: seq<Id>)
    requires MetadataExact(w, s, doc) && Ordered(s, order) && AllBounded(s, [])
    ensures forall p :: First(s, p) ==> !TooDeep(p)
  {
    hide NodeFits, PlacedPage, Reachable, Referenced, Path, Closed, Topological, Forestalled;
    forall p | First(s, p)
      ensures !TooDeep(p)
    {
      assert [] <= p && |p| <= LONGEST_PATH;
      NoRepetition(s, order, p);
    }
  }

  lemma SizesDiffer(w: World, s: Snapshot, doc: Document, supported: seq<U64>)
    requires s.root.id in s.records || |Entries(doc.records)| != |s.records| || |Entries(doc.chunks)| != |s.chunks|
             || |Entries(doc.resources)| != |s.resources|
    ensures !CatalogsExact(w, s, doc, supported)
  {
    hide Entries, RecordMatches, ResourceMatches, ChunkMatches;
    SameKeys(Entries(doc.records), s.records);
    SameKeys(Entries(doc.chunks), s.chunks);
    SameKeys(Entries(doc.resources), s.resources);
  }

  lemma SameKeys<K, A, B>(a: map<K, A>, b: map<K, B>)
    ensures a.Keys == b.Keys ==> |a| == |b|
  {
    assert |a| == |a.Keys| && |b| == |b.Keys|;
  }

  /** Everything stored is catalogued, and as many entries are catalogued as stored. */
  lemma CatalogsAgree(w: World, s: Snapshot, doc: Document, supported: seq<U64>)
    requires s.root.id !in s.records
    requires |Entries(doc.records)| == |s.records| && |Entries(doc.chunks)| == |s.chunks|
    requires |Entries(doc.resources)| == |s.resources|
    requires forall id :: id in s.records ==> RecordMatches(w, s, doc, supported, id)
    requires forall h :: h in s.resources ==> ResourceMatches(w, s, doc, h)
    requires forall id :: id in s.chunks ==> ChunkMatches(w, s, doc, id)
    ensures CatalogsExact(w, s, doc, supported)
    ensures |Entries(doc.chunks).Keys| == |s.chunks.Keys| && |Entries(doc.chunks)| == |s.chunks.Keys|
  {
    hide Entries, EncodeRecord, Matches, C.Decode, Supported;
    SameSize(s.records.Keys, Entries(doc.records).Keys);
    SameSize(s.resources.Keys, Entries(doc.resources).Keys);
    SameSize(s.chunks.Keys, Entries(doc.chunks).Keys);
  }

  // ----- what the catalogs of an exact snapshot are

  /** The catalogued records are exactly those reachable from the root, and no dependency path of an
      accepted snapshot meets a record twice. */
  lemma AcceptedGraph(w: World, s: Snapshot, supported: seq<U64>, p: seq<Id>)
    requires Exact(w, s, supported) && Acyclic(s) && Path(s, p)
    ensures forall x :: x in Entries(ReadDocument(w, s.root).value.records) <==> Reachable(s, x)
    ensures forall i, j :: 0 <= i < j < |p| ==> p[i] != p[j]
  {
    hide ReadDocument, Entries, NodeFits, Exact, Closed, Path;
    ExactRecords(w, s, supported);
    ReachableIsStored(s);
    AcyclicPath(s, p);
  }

  lemma ExactRecords(w: World, s: Snapshot, supported: seq<U64>)
    requires Exact(w, s, supported)
    ensures ReadDocument(w, s.root).Ok? && Entries(ReadDocument(w, s.root).value.records).Keys == s.records.Keys
    ensures Closed(s) && forall x :: x in s.records ==> Reachable(s, x)
  {
    hide ReadDocument, Entries, NodeFits, Closed, Reachable, RecordMatches, ResourceMatches, ChunkMatches, PlacedPage,
         EncodeRecord, GeometriesSound, SegmentsExact, Referenced, DecodedChunks;
  }

  lemma ReachableIsStored(s: Snapshot)
    requires Closed(s)
    ensures forall x :: Reachable(s, x) ==> x in s.records
  {
    forall x | Reachable(s, x)
      ensures x in s.records
    {
      var q :| Path(s, q) && q[|q| - 1] == x;
      PathWithin(s, q, |q| - 1);
    }
  }

  lemma AcyclicPath(s: Snapshot, p: seq<Id>)
    requires Acyclic(s) && Closed(s) && Path(s, p)
    ensures forall i, j :: 0 <= i < j < |p| ==> p[i] != p[j]
  {
    hide Closed, Path, Topological;
    var order :| Ordered(s, order);
    NoRepetition(s, order, p);
  }

  /** In an exact snapshot the reconstructed ticks of a timed geometry never fall, across all its parts, and none
      leaves its session's clock. */
  lemma AcceptedTicks(w: World, s: Snapshot, supported: seq<U64>, x: Id, k: nat, i: nat, m: nat, j: nat)
    requires Exact(w, s, supported) && x in s.records && s.records[x].kind == GEOMETRY
    requires ReadGeometry(w, s.records[x]).Ok? && ReadGeometry(w, s.records[x]).value.timing.Some?
    requires var parts := ReadGeometry(w, s.records[x]).value.parts;
      k <= m < |parts| && i < parts[k].count && j < parts[m].count && (k == m ==> i <= j)
    ensures var g := ReadGeometry(w, s.records[x]).value;
            var st := StoreOf(w, s, ReadDocument(w, s.root).value);
            && ProfileAt(w, s, g.profile).Ok? && st.Samples(g, ProfileAt(w, s, g.profile).value)
            && var profile := ProfileAt(w, s, g.profile).value;
               st.SampleTick(g, profile, g.parts[k], i) <= st.SampleTick(g, profile, g.parts[m], j) < TICKS - g.timing.value.startTick
  {
    hide ReadGeometry, ReadDocument, ProfileAt, CatalogsExact, MetadataExact, SegmentsExact, StoreOf, EncodeRecord,
         Supported, Store.SampleTick;
    var g := ReadGeometry(w, s.records[x]).value;
    var st := StoreOf(w, s, ReadDocument(w, s.root).value);
    assert GeometrySound(w, s, st, s.records[x]);
    TicksNeverFall(st, g, ProfileAt(w, s, g.profile).value, k, i, m, j);
    TicksInSession(st, g, ProfileAt(w, s, g.profile).value, m, j);
  }

  /** In an exact snapshot the channels behind every geometry part are exactly the axes of its profile. */
  lemma AcceptedChannels(w: World, s: Snapshot, st: Store, r: Record, part: Part)
    requires GeometrySound(w, s, st, r) && st.Sound() && part in ReadGeometry(w, r).value.parts
    ensures var g := ReadGeometry(w, r).value;
            var profile := ProfileAt(w, s, g.profile).value;
            && st.Places(g, part)
            && (forall e :: e in profile.axes ==> exists c :: c in st.ChunkOf(g, part).columns && c.semantic == e.key)
            && (forall c :: c in st.ChunkOf(g, part).columns ==> HasAxis(profile.axes, c.semantic))
  {
    hide ReadGeometry, ProfileAt, TicksFit, Catalog;
    var g := ReadGeometry(w, r).value;
    var profile := ProfileAt(w, s, g.profile).value;
    var k :| 0 <= k < |g.parts| && g.parts[k] == part;
    assert st.Fits(g, profile, g.parts[k]);
    var chunk := st.ChunkOf(g, part);
    assert DecodedChunk(chunk);
    StoredProfile(w, s, g.profile);
    ReadAxesInOrder(w, s.records[g.profile]);
    ChannelsAreAxes(chunk.columns, profile.axes);
  }

  lemma StoredProfile(w: World, s: Snapshot, id: Id)
    requires ProfileAt(w, s, id).Ok?
    ensures id in s.records && ProfileAt(w, s, id) == ReadProfile(w, s.records[id])
  {
    hide ReadProfile;
  }

  lemma ReadAxesInOrder(w: World, r: Record)
    requires ReadProfile(w, r).Ok?
    ensures Catalog(ReadProfile(w, r).value.axes, AxisKeys())
  {
    hide ProfileOf, Catalog;
    ProfileInOrder(r.body, w.arith);
  }
}
