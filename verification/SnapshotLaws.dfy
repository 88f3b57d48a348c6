/** What an exact snapshot is, in terms of its records, files and bytes: every check of `Snapshot::validate` of
    `crates/ink-format/src/snapshot.rs` spelled out. */
module SnapshotLaws {
  import opened Bytes
  import opened Results
  import opened Fields
  import opened Lists
  import opened Records
  import opened Bodies
  import opened Geometries
  import opened Profiles
  import opened Documents
  import opened TypedRecords
  import opened SnapshotSpec
  import opened SnapshotTicks
  import opened Snapshots
  import opened SampleRows
  import C = ChunkFormat

  // ----- records of the metadata graph

  /** The stored record with this identifier reads as this body. */
  predicate Stores(w: World, s: Snapshot, id: Id, kind: U64, t: Typed)
    requires 1 <= kind <= 7
  {
    id in s.records && Read(kind, s.records[id], w.arith) == Ok(t)
  }

  ghost predicate BodyGood(w: World, s: Snapshot, t: Typed) {
    match t
    case OfPage(p) =>
      p.recognition == [] && p.corrections == []
      && forall o :: o in p.objects ==> exists x :: Stores(w, s, o.recordId, 3, OfStroke(x)) && x.id == o.objectId
    case OfStroke(x) => (exists g :: Stores(w, s, x.geometry, 4, OfGeometry(g))) && exists b :: Stores(w, s, x.brush, 7, OfBrush(b))
    case OfGeometry(g) =>
      exists p :: Stores(w, s, g.profile, 5, OfProfile(p))
        && (g.timing.Some? ==> exists x :: Stores(w, s, g.timing.value.session, 6, OfSession(x)) && p.tickNs == Some(x.tickNs))
    case OfDocument(_) => false
    case _ => true
  }

  /** The record is a page, stroke, geometry, profile, session or brush whose references and resources are there. */
  ghost predicate NodeGood(w: World, s: Snapshot, r: Record) {
    && (forall h :: h in r.resources ==> h in s.resources)
    && 2 <= r.kind <= 7 && Read(r.kind, r, w.arith).Ok? && BodyGood(w, s, Read(r.kind, r, w.arith).value)
  }

  lemma KindIs(kind: U64, r: Record, w: World)
    requires 1 <= kind <= 7 && Read(kind, r, w.arith).Ok?
    ensures KindOf(Read(kind, r, w.arith).value) == kind
  {
    hide DocumentOf, PageOf, StrokeOf, GeometryOf, ProfileOf, SessionOf, BrushOf;
  }

  lemma StrokeStored(w: World, s: Snapshot, id: Id)
    ensures StrokeAt(w, s, id).Ok? <==> exists x :: Stores(w, s, id, 3, OfStroke(x))
    ensures forall x :: Stores(w, s, id, 3, OfStroke(x)) <==> StrokeAt(w, s, id) == Ok(x)
  {
    hide Read;
    if id in s.records && Read(3, s.records[id], w.arith).Ok? {
      KindIs(3, s.records[id], w);
      assert Read(3, s.records[id], w.arith) == Ok(OfStroke(Read(3, s.records[id], w.arith).value.stroke));
    }
  }

  lemma GeometryStored(w: World, s: Snapshot, id: Id)
    ensures GeometryAt(w, s, id).Ok? <==> exists g :: Stores(w, s, id, 4, OfGeometry(g))
  {
    hide Read;
    if id in s.records && Read(4, s.records[id], w.arith).Ok? {
      KindIs(4, s.records[id], w);
      assert Stores(w, s, id, 4, OfGeometry(Read(4, s.records[id], w.arith).value.geometry));
    }
  }

  lemma BrushStored(w: World, s: Snapshot, id: Id)
    ensures BrushAt(w, s, id).Ok? <==> exists b :: Stores(w, s, id, 7, OfBrush(b))
  {
    hide Read;
    if id in s.records && Read(7, s.records[id], w.arith).Ok? {
      KindIs(7, s.records[id], w);
      assert Stores(w, s, id, 7, OfBrush(Read(7, s.records[id], w.arith).value.brush));
    }
  }

  lemma ProfileStored(w: World, s: Snapshot, id: Id)
    ensures forall p :: Stores(w, s, id, 5, OfProfile(p)) <==> ProfileAt(w, s, id) == Ok(p)
    ensures ProfileAt(w, s, id).Ok? <==> exists p :: Stores(w, s, id, 5, OfProfile(p))
  {
    hide Read;
    if id in s.records && Read(5, s.records[id], w.arith).Ok? {
      KindIs(5, s.records[id], w);
      assert Read(5, s.records[id], w.arith) == Ok(OfProfile(Read(5, s.records[id], w.arith).value.profile));
    }
  }

  lemma SessionStored(w: World, s: Snapshot, id: Id)
    ensures forall x :: Stores(w, s, id, 6, OfSession(x)) <==> SessionAt(w, s, id) == Ok(x)
  {
    hide Read;
    if id in s.records && Read(6, s.records[id], w.arith).Ok? {
      KindIs(6, s.records[id], w);
      assert Read(6, s.records[id], w.arith) == Ok(OfSession(Read(6, s.records[id], w.arith).value.session));
    }
  }

  lemma PageStored(w: World, s: Snapshot, id: Id)
    ensures forall p :: Stores(w, s, id, 2, OfPage(p)) <==> PageAt(w, s, id) == Ok(p)
  {
    hide Read;
    if id in s.records && Read(2, s.records[id], w.arith).Ok? {
      KindIs(2, s.records[id], w);
      assert Read(2, s.records[id], w.arith) == Ok(OfPage(Read(2, s.records[id], w.arith).value.page));
    }
  }

  lemma PageMeans(w: World, s: Snapshot, r: Record)
    requires r.kind == 2
    ensures PageFits(w, s, r) <==> Read(2, r, w.arith).Ok? && BodyGood(w, s, Read(2, r, w.arith).value)
  {
    hide Read, StrokeAt, Stores;
    if Read(2, r, w.arith).Ok? {
      KindIs(2, r, w);
      var p := Read(2, r, w.arith).value.page;
      forall o | o in p.objects
        ensures PlacedObject(w, s, o) <==> exists x :: Stores(w, s, o.recordId, 3, OfStroke(x)) && x.id == o.objectId
      {
        StrokeStored(w, s, o.recordId);
      }
    }
  }

  lemma StrokeMeans(w: World, s: Snapshot, r: Record)
    requires r.kind == 3
    ensures StrokeFits(w, s, r) <==> Read(3, r, w.arith).Ok? && BodyGood(w, s, Read(3, r, w.arith).value)
  {
    hide Read, GeometryAt, BrushAt, Stores;
    if Read(3, r, w.arith).Ok? {
      KindIs(3, r, w);
      var x := Read(3, r, w.arith).value.stroke;
      GeometryStored(w, s, x.geometry);
      BrushStored(w, s, x.brush);
    }
  }

  lemma GeometryMeans(w: World, s: Snapshot, r: Record)
    requires r.kind == 4
    ensures GeometryFits(w, s, r) <==> Read(4, r, w.arith).Ok? && BodyGood(w, s, Read(4, r, w.arith).value)
  {
    hide Read, ProfileAt, SessionAt, Stores;
    if Read(4, r, w.arith).Ok? {
      KindIs(4, r, w);
      var g := Read(4, r, w.arith).value.geometry;
      ProfileStored(w, s, g.profile);
      if g.timing.Some? {
        SessionStored(w, s, g.timing.value.session);
      }
    }
  }

  lemma OtherMeans(w: World, s: Snapshot, r: Record)
    requires r.kind == 5 || r.kind == 6 || r.kind == 7
    ensures BodyFits(w, s, r) <==> Read(r.kind, r, w.arith).Ok? && BodyGood(w, s, Read(r.kind, r, w.arith).value)
  {
    hide Read;
    if Read(r.kind, r, w.arith).Ok? {
      KindIs(r.kind, r, w);
    }
  }

  /** The node checks accept exactly the good records. */
  lemma NodeMeans(w: World, s: Snapshot, r: Record)
    ensures NodeFits(w, s, r) <==> NodeGood(w, s, r)
  {
    hide Read, PageFits, StrokeFits, GeometryFits, BodyGood;
    if r.kind == 2 {
      PageMeans(w, s, r);
    } else if r.kind == 3 {
      StrokeMeans(w, s, r);
    } else if r.kind == 4 {
      GeometryMeans(w, s, r);
    } else if 5 <= r.kind <= 7 {
      OtherMeans(w, s, r);
    }
  }

  // ----- catalogs

  lemma {:induction false} EntriesMean<K(!new), V>(s: seq<Pair<K, V>>, k: K, v: V)
    requires forall i, j :: 0 <= i < j < |s| ==> s[i].key != s[j].key
    ensures k in Entries(s) && Entries(s)[k] == v <==> Pair(k, v) in s
  {
    if s != [] {
      var rest := s[1..];
      assert forall i :: 0 <= i < |rest| ==> rest[i] == s[i + 1];
      EntriesMean(rest, k, v);
      assert s[0] == Pair(s[0].key, s[0].val);
      if Pair(k, v) in rest {
        var i :| 0 <= i < |rest| && rest[i] == Pair(k, v);
        assert s[i + 1].key != s[0].key;
      }
      assert forall e :: e in s <==> e == s[0] || e in rest;
    }
  }

  /** A catalog names this file by its length and hash. */
  predicate Names<K(==)>(w: World, catalog: seq<Pair<K, BlobRef>>, k: K, bytes: seq<Byte>) {
    exists e :: e in catalog && e.key == k && e.val.length == |bytes| && e.val.hash == w.sha(bytes)
  }

  lemma NamesMeans<K(!new)>(w: World, catalog: seq<Pair<K, BlobRef>>, k: K, bytes: seq<Byte>)
    requires forall i, j :: 0 <= i < j < |catalog| ==> catalog[i].key != catalog[j].key
    ensures Names(w, catalog, k, bytes) <==> k in Entries(catalog) && Matches(w, bytes, Entries(catalog)[k])
  {
    if e :| e in catalog && e.key == k && e.val.length == |bytes| && e.val.hash == w.sha(bytes) {
      EntriesMean(catalog, k, e.val);
    }
    if k in Entries(catalog) && Matches(w, bytes, Entries(catalog)[k]) {
      EntriesMean(catalog, k, Entries(catalog)[k]);
    }
  }

  predicate DistinctKeys<K(==), V>(s: seq<Pair<K, V>>) { forall i, j :: 0 <= i < j < |s| ==> s[i].key != s[j].key }

  predicate RecordGood(w: World, s: Snapshot, doc: Document, supported: seq<U64>, id: Id)
    requires id in s.records
  {
    var r := s.records[id];
    && r.id == id && (forall f :: f in r.features ==> f in supported)
    && EncodeRecord(r).Ok? && Names(w, doc.records, id, EncodeRecord(r).value)
  }

  predicate ChunkGood(w: World, s: Snapshot, doc: Document, id: Id)
    requires id in s.chunks
  {
    Names(w, doc.chunks, id, s.chunks[id]) && C.Decode(w.pf, s.chunks[id]).Ok? && C.Decode(w.pf, s.chunks[id]).value.id == id
  }

  predicate ResourceGood(w: World, s: Snapshot, doc: Document, h: Hash)
    requires h in s.resources
  {
    Pair(h, |s.resources[h]|) in doc.resources && w.sha(s.resources[h]) == h
  }

  /** Everything stored is catalogued under its own hash and length, and everything catalogued is stored. */
  ghost predicate CatalogsGood(w: World, s: Snapshot, doc: Document, supported: seq<U64>) {
    && s.root.id !in s.records
    && (forall e :: e in doc.records ==> e.key in s.records) && (forall e :: e in doc.chunks ==> e.key in s.chunks)
    && (forall e :: e in doc.resources ==> e.key in s.resources)
    && (forall id :: id in s.records ==> RecordGood(w, s, doc, supported, id))
    && (forall id :: id in s.chunks ==> ChunkGood(w, s, doc, id))
    && (forall h :: h in s.resources ==> ResourceGood(w, s, doc, h))
  }

  lemma CatalogsMean(w: World, s: Snapshot, doc: Document, supported: seq<U64>)
    requires DistinctKeys(doc.records) && DistinctKeys(doc.chunks) && DistinctKeys(doc.resources)
    ensures CatalogsExact(w, s, doc, supported) <==> CatalogsGood(w, s, doc, supported)
  {
    hide Entries, EncodeRecord, C.Decode, Matches, Names;
    EntryKeys(doc.records);
    EntryKeys(doc.chunks);
    EntryKeys(doc.resources);
    forall id | id in s.records
      ensures RecordMatches(w, s, doc, supported, id) <==> RecordGood(w, s, doc, supported, id)
    {
      if EncodeRecord(s.records[id]).Ok? {
        NamesMeans(w, doc.records, id, EncodeRecord(s.records[id]).value);
      }
    }
    forall id | id in s.chunks
      ensures ChunkMatches(w, s, doc, id) <==> ChunkGood(w, s, doc, id)
    {
      NamesMeans(w, doc.chunks, id, s.chunks[id]);
    }
    forall h | h in s.resources
      ensures ResourceMatches(w, s, doc, h) <==> ResourceGood(w, s, doc, h)
    {
      if |s.resources[h]| < 0x1_0000_0000_0000_0000 {
        EntriesMean(doc.resources, h, |s.resources[h]|);
      }
    }
    KeysMean(w, s, doc, supported);
  }

  lemma KeysMean(w: World, s: Snapshot, doc: Document, supported: seq<U64>)
    requires forall id :: id in s.records ==> (RecordMatches(w, s, doc, supported, id) <==> RecordGood(w, s, doc, supported, id))
    requires forall id :: id in s.chunks ==> (ChunkMatches(w, s, doc, id) <==> ChunkGood(w, s, doc, id))
    requires forall h :: h in s.resources ==> (ResourceMatches(w, s, doc, h) <==> ResourceGood(w, s, doc, h))
    ensures CatalogsExact(w, s, doc, supported) <==> CatalogsGood(w, s, doc, supported)
  {
    hide Entries, RecordGood, ChunkGood, ResourceGood, EncodeRecord, C.Decode, Matches, Supported;
    EntryKeys(doc.records);
    EntryKeys(doc.chunks);
    EntryKeys(doc.resources);
  }

  // ----- channels and parts

  /** The types a known channel may have on disk. */
  const CHANNEL_TYPES: map<nat, set<C.DType>> := map[
    1 := {C.F32, C.F64}, 2 := {C.F32, C.F64}, 8 := {C.F32, C.F64}, 9 := {C.F32, C.F64}, 10 := {C.F32, C.F64},
    3 := {C.U16, C.U32, C.F32, C.F64}, 4 := {C.U32, C.U64},
    5 := {C.I8, C.I16, C.F32, C.F64}, 6 := {C.I8, C.I16, C.F32, C.F64},
    7 := {C.U16, C.F32, C.F64}, 11 := {C.I64, C.F64}, 12 := {C.U8}]

  predicate TypeGood(col: C.Column) {
    if col.semantic in CHANNEL_TYPES then col.dtype in CHANNEL_TYPES[col.semantic] else !col.required
  }

  lemma TypeMeans(col: C.Column)
    ensures Allowed(col) <==> TypeGood(col)
  {
    if col.semantic !in {1, 2, 3, 4, 5, 6, 7, 8, 9, 10, 11, 12} {
      assert col.semantic !in CHANNEL_TYPES;
    }
  }

  /** A column for each axis and an axis for each column, all of types they may have. */
  predicate ChannelsGood(columns: seq<C.Column>, axes: seq<Pair<U16, Axis>>) {
    && |columns| == |axes|
    && (forall c :: c in columns ==> TypeGood(c) && exists e :: e in axes && e.key == c.semantic)
  }

  lemma ChannelsMean(columns: seq<C.Column>, axes: seq<Pair<U16, Axis>>)
    ensures ChannelsFit(columns, axes) <==> ChannelsGood(columns, axes)
  {
    hide Allowed, TypeGood;
    forall c | c in columns
      ensures Allowed(c) <==> TypeGood(c)
    {
      TypeMeans(c);
    }
  }

  predicate HasElapsed(c: C.Chunk) { exists col :: col in c.columns && col.semantic == 4 }

  /** The stamps of a part lie within 64 bits, session start included, and start at its first tick. */
  ghost predicate StampsGood(c: C.Chunk, index: nat, part: Part, origin: nat) {
    exists dt :: ElapsedColumn(c, dt) && StampsOf(c, dt, index, part, origin)
  }

  predicate StampsOf(c: C.Chunk, dt: C.Column, index: nat, part: Part, origin: nat) {
    && part.count > 0 && index < |c.segments| && Timed(dt, RowsBefore(c.segments, index) + part.count)
    && Elapsed(dt, RowsBefore(c.segments, index)) == 0
    && forall j :: 0 <= j < part.count ==> origin + Stamp(c, dt, index, part, j) < 0x1_0000_0000_0000_0000
  }

  /** The part is a stored segment of its profile, with its channels and its time stamps. */
  ghost predicate PartGood(w: World, s: Snapshot, g: Geometry, profile: SourceProfile, part: Part, c: C.Chunk, index: nat) {
    && StoredAt(w, s, g, part, c, index) && ChannelsGood(c.columns, profile.axes) && (HasElapsed(c) <==> g.timing.Some?)
    && if g.timing.Some? then StampsGood(c, index, part, g.timing.value.startTick) else part.firstTick == 0
  }

  ghost predicate PartStored(w: World, s: Snapshot, g: Geometry, profile: SourceProfile, part: Part) {
    exists c, index :: PartGood(w, s, g, profile, part, c, index)
  }

  lemma PlacesMeans(w: World, s: Snapshot, g: Geometry, part: Part, c: C.Chunk, index: nat)
    requires ReadDocument(w, s.root).Ok?
    ensures var st := StoreOf(w, s, ReadDocument(w, s.root).value);
      StoredAt(w, s, g, part, c, index) <==> st.Places(g, part) && st.ChunkOf(g, part) == c && st.segments[part.segment].index == index
  {
    hide ReadDocument, Entries, C.Decode;
  }

  lemma ElapsedIs(c: C.Chunk)
    requires DecodedChunk(c)
    ensures HasElapsed(c) <==> FindColumn(c.columns, 4).Some?
    ensures HasElapsed(c) ==> ElapsedColumn(c, FindColumn(c.columns, 4).value)
  {
    if HasElapsed(c) {
      OneElapsed(c, FindColumn(c.columns, 4).value);
    }
  }

  /** On the rows of a segment the loop's condition is the condition on the stamps. */
  lemma StampsMean(c: C.Chunk, dt: C.Column, profile: SourceProfile, index: nat, part: Part, origin: nat)
    requires DecodedChunk(c) && ElapsedColumn(c, dt) && ChannelsFit(c.columns, profile.axes) && index < |c.segments|
    ensures StampsOf(c, dt, index, part, origin) <==>
              part.count > 0 && Within(dt, RowsBefore(c.segments, index), part.count)
              && TicksFit(dt, RowsBefore(c.segments, index), part.count, part.firstTick, origin)
  {
    hide RowsBefore, Elapsed, Delta, TickAt, Passed;
    var start := RowsBefore(c.segments, index);
    assert Allowed(dt);
    assert Timed(dt, start + part.count) <==> Within(dt, start, part.count);
    if part.count > 0 && Within(dt, start, part.count) {
      DeltaIsElapsed(dt, start);
      forall j | 0 <= j < part.count
        ensures TickAt(dt, start, part.count, part.firstTick, j) == Stamp(c, dt, index, part, j)
      {
        TickIsSum(dt, start, part.count, part.firstTick, j);
      }
    }
  }

  lemma FitsMeans(w: World, s: Snapshot, g: Geometry, profile: SourceProfile, part: Part)
    requires ReadDocument(w, s.root).Ok?
    ensures StoreOf(w, s, ReadDocument(w, s.root).value).Fits(g, profile, part) <==> PartStored(w, s, g, profile, part)
  {
    hide ReadDocument, StoreOf, StoredAt, ChannelsFit, ChannelsGood, HasElapsed, StampsGood, Within, TicksFit, DecodedChunk, RowsBefore;
    var st := StoreOf(w, s, ReadDocument(w, s.root).value);
    if st.Places(g, part) {
      var c, index := st.ChunkOf(g, part), st.segments[part.segment].index;
      PlacesMeans(w, s, g, part, c, index);
      PlacedMeans(w, s, g, profile, part, c, index);
      assert PartGood(w, s, g, profile, part, c, index) <==> st.Fits(g, profile, part);
    }
    if c, index :| PartGood(w, s, g, profile, part, c, index) {
      PlacesMeans(w, s, g, part, c, index);
    }
  }

  lemma PlacedMeans(w: World, s: Snapshot, g: Geometry, profile: SourceProfile, part: Part, c: C.Chunk, index: nat)
    requires ReadDocument(w, s.root).Ok? && StoredAt(w, s, g, part, c, index)
    ensures PartGood(w, s, g, profile, part, c, index) <==> StoreOf(w, s, ReadDocument(w, s.root).value).Fits(g, profile, part)
  {
    hide ReadDocument, StoreOf, StoredAt, ChannelsFit, ChannelsGood, HasElapsed, Within, TicksFit, DecodedChunk, RowsBefore, StampsOf, ElapsedColumn,
         FindColumn;
    var st := StoreOf(w, s, ReadDocument(w, s.root).value);
    PlacesMeans(w, s, g, part, c, index);
    StoreSound(w, s, ReadDocument(w, s.root).value);
    assert DecodedChunk(c);
    ChannelsMean(c.columns, profile.axes);
    ElapsedIs(c);
    CountsAreRows(c.segments, index);
    if g.timing.Some? && HasElapsed(c) && ChannelsFit(c.columns, profile.axes) {
      var dt := FindColumn(c.columns, 4).value;
      StampsMean(c, dt, profile, index, part, g.timing.value.startTick);
      forall d | ElapsedColumn(c, d)
        ensures d == dt
      {
        OnlyElapsed(c, d, dt);
      }
    }
  }

  lemma OnlyElapsed(c: C.Chunk, d: C.Column, dt: C.Column)
    requires ElapsedColumn(c, d) && ElapsedColumn(c, dt)
    ensures d == dt
  {
  }

  // ----- geometries, segments and the whole

  /** All parts are good, and each begins no earlier than the one before it ended. */
  ghost predicate PartsGood(w: World, s: Snapshot, g: Geometry, profile: SourceProfile) {
    && (forall part :: part in g.parts ==> PartStored(w, s, g, profile, part))
    && (forall k :: 0 < k < |g.parts| && g.timing.Some? ==> Follows(w, s, g, g.parts[k - 1], g.parts[k]))
  }

  ghost predicate EndsAt(w: World, s: Snapshot, g: Geometry, part: Part, t: nat) {
    part.count > 0 && HasStamp(w, s, g, part, part.count - 1, t)
  }

  ghost predicate Follows(w: World, s: Snapshot, g: Geometry, last: Part, next: Part) {
    forall t: nat :: EndsAt(w, s, g, last, t) ==> t <= next.firstTick
  }

  lemma FollowsMeans(w: World, s: Snapshot, g: Geometry, profile: SourceProfile, last: Part, next: Part)
    requires ReadDocument(w, s.root).Ok? && g.timing.Some?
    requires StoreOf(w, s, ReadDocument(w, s.root).value).Fits(g, profile, last)
    ensures last.count > 0
    ensures Follows(w, s, g, last, next) <==>
              StoreOf(w, s, ReadDocument(w, s.root).value).SampleTick(g, profile, last, last.count - 1) <= next.firstTick
  {
    hide ReadDocument, StoreOf, Store.SampleTick, HasStamp, ChannelsFit, Within, TicksFit;
    var st := StoreOf(w, s, ReadDocument(w, s.root).value);
    assert last.count > 0;
    forall t: nat
      ensures EndsAt(w, s, g, last, t) <==> t == st.SampleTick(g, profile, last, last.count - 1)
    {
      StampIs(w, s, g, profile, last, last.count - 1, t);
    }
    assert EndsAt(w, s, g, last, st.SampleTick(g, profile, last, last.count - 1));
  }

  lemma PartsMean(w: World, s: Snapshot, g: Geometry, profile: SourceProfile)
    requires ReadDocument(w, s.root).Ok?
    ensures StoreOf(w, s, ReadDocument(w, s.root).value).Samples(g, profile) <==> PartsGood(w, s, g, profile)
  {
    hide ReadDocument, StoreOf, Store.SampleTick, Store.Fits, Follows, PartStored;
    var st := StoreOf(w, s, ReadDocument(w, s.root).value);
    forall part | part in g.parts
      ensures st.Fits(g, profile, part) <==> PartStored(w, s, g, profile, part)
    {
      FitsMeans(w, s, g, profile, part);
    }
    if g.timing.Some? && forall part :: part in g.parts ==> st.Fits(g, profile, part) {
      forall k {:trigger g.parts[k]} | 0 < k < |g.parts|
        ensures g.parts[k - 1].count > 0
        ensures Follows(w, s, g, g.parts[k - 1], g.parts[k]) <==>
                  st.SampleTick(g, profile, g.parts[k - 1], g.parts[k - 1].count - 1) <= g.parts[k].firstTick
      {
        FollowsMeans(w, s, g, profile, g.parts[k - 1], g.parts[k]);
      }
    }
  }

  ghost predicate GeometryGood(w: World, s: Snapshot, r: Record) {
    exists g, p {:trigger PartsGood(w, s, g, p)} ::
      Read(4, r, w.arith) == Ok(OfGeometry(g)) && Stores(w, s, g.profile, 5, OfProfile(p)) && PartsGood(w, s, g, p)
  }

  lemma SoundMeans(w: World, s: Snapshot, r: Record)
    requires ReadDocument(w, s.root).Ok?
    ensures GeometrySound(w, s, StoreOf(w, s, ReadDocument(w, s.root).value), r) <==> GeometryGood(w, s, r)
  {
    hide ReadDocument, StoreOf, Read, ProfileAt, Stores, Store.Samples, PartsGood;
    if Read(4, r, w.arith).Ok? {
      KindIs(4, r, w);
      var g := Read(4, r, w.arith).value.geometry;
      assert Read(4, r, w.arith) == Ok(OfGeometry(g));
      ProfileStored(w, s, g.profile);
      if ProfileAt(w, s, g.profile).Ok? {
        PartsMean(w, s, g, ProfileAt(w, s, g.profile).value);
      }
    }
  }

  /** Some geometry has a part in this segment. */
  ghost predicate PartIn(w: World, s: Snapshot, segment: Id) {
    exists x, g {:trigger Stores(w, s, x, 4, OfGeometry(g))} ::
      Stores(w, s, x, 4, OfGeometry(g)) && exists part :: part in g.parts && part.segment == segment
  }

  lemma ReadKind(kind: U64, r: Record, w: World)
    requires 1 <= kind <= 7 && Read(kind, r, w.arith).Ok?
    ensures r.kind == kind
  {
  }

  lemma UsedMeans(w: World, s: Snapshot, segment: Id)
    ensures SegmentUsed(w, s, segment) <==> PartIn(w, s, segment)
  {
    hide Read;
    if SegmentUsed(w, s, segment) {
      var x :| x in s.records && UsesSegment(w, s.records[x], segment);
      KindIs(4, s.records[x], w);
      assert Stores(w, s, x, 4, OfGeometry(ReadGeometry(w, s.records[x]).value));
    }
    if x, g :| Stores(w, s, x, 4, OfGeometry(g)) && exists part :: part in g.parts && part.segment == segment {
      KindIs(4, s.records[x], w);
      ReadKind(4, s.records[x], w);
      assert ReadGeometry(w, s.records[x]) == Ok(g);
    }
  }

  /** The whole of what the validator checks. */
  ghost predicate Good(w: World, s: Snapshot, supported: seq<U64>, doc: Document) {
    && EncodeRecord(s.root).Ok? && (forall f :: f in s.root.features ==> f in supported)
    && Read(1, s.root, w.arith) == Ok(OfDocument(doc)) && CatalogsGood(w, s, doc, supported)
    && (forall o :: o in doc.pages ==> exists p :: Stores(w, s, o.recordId, 2, OfPage(p)) && p.id == o.objectId)
    && Closed(s) && (forall x :: x in s.records ==> NodeGood(w, s, s.records[x]) && Reachable(s, x))
    && (forall h :: Referenced(s, h) <==> h in s.resources)
    && (forall x :: x in s.records && s.records[x].kind == 4 ==> GeometryGood(w, s, s.records[x]))
    && (forall d :: (exists e :: e in doc.segments && e.key == d) <==> PartIn(w, s, d))
    && (forall c :: c in s.chunks <==> exists e :: e in doc.segments && e.val.chunk == c)
  }

  lemma DocumentIs(w: World, s: Snapshot)
    requires ReadDocument(w, s.root).Ok?
    ensures var doc := ReadDocument(w, s.root).value;
      Read(1, s.root, w.arith) == Ok(OfDocument(doc)) && DistinctKeys(doc.records) && DistinctKeys(doc.chunks) && DistinctKeys(doc.resources)
      && DistinctKeys(doc.segments)
  {
    KindIs(1, s.root, w);
    hide DocumentOf;
    DocumentInOrder(s.root.body);
    KeysInOrder();
  }

  lemma DocumentReadIs(w: World, s: Snapshot, doc: Document)
    ensures Read(1, s.root, w.arith) == Ok(OfDocument(doc)) <==> ReadDocument(w, s.root) == Ok(doc)
  {
    hide Read;
    if Read(1, s.root, w.arith).Ok? {
      KindIs(1, s.root, w);
    }
  }

  lemma PlacedPageMeans(w: World, s: Snapshot, o: ObjectRef)
    ensures PlacedPage(w, s, o) <==> exists p :: Stores(w, s, o.recordId, 2, OfPage(p)) && p.id == o.objectId
  {
    hide PageAt, Stores;
    PageStored(w, s, o.recordId);
  }

  lemma SegmentsMean(w: World, s: Snapshot, doc: Document)
    requires DistinctKeys(doc.segments)
    ensures SegmentsExact(w, s, StoreOf(w, s, doc)) <==>
              && (forall d :: (exists e :: e in doc.segments && e.key == d) <==> PartIn(w, s, d))
              && (forall c :: c in s.chunks <==> exists e :: e in doc.segments && e.val.chunk == c)
  {
    hide Entries, DecodedChunks, SegmentUsed, PartIn;
    EntryKeys(doc.segments);
    var entries := Entries(doc.segments);
    forall d: Id
      ensures SegmentUsed(w, s, d) <==> PartIn(w, s, d)
      ensures d in entries <==> exists e :: e in doc.segments && e.key == d
    {
      UsedMeans(w, s, d);
    }
    forall c: Id
      ensures ChunkUsed(StoreOf(w, s, doc), c) <==> exists e :: e in doc.segments && e.val.chunk == c
    {
      if d :| d in entries && entries[d].chunk == c {
        EntriesMean(doc.segments, d, entries[d]);
      }
      if e :| e in doc.segments && e.val.chunk == c {
        EntriesMean(doc.segments, e.key, e.val);
      }
    }
  }

  /** The validator's notion of an exact snapshot, spelled out. */
  lemma ExactMeans(w: World, s: Snapshot, supported: seq<U64>)
    ensures Exact(w, s, supported) <==> exists doc :: Good(w, s, supported, doc)
  {
    hide ReadDocument, Read, CatalogsExact, CatalogsGood, NodeFits, NodeGood, PlacedPage, GeometrySound, GeometryGood, SegmentsExact, PartIn, Closed,
         Reachable, Referenced, EncodeRecord, StoreOf, Stores, DistinctKeys;
    if ReadDocument(w, s.root).Ok? {
      var doc := ReadDocument(w, s.root).value;
      DocumentIs(w, s);
      GoodMeans(w, s, supported, doc);
    }
    if doc :| Good(w, s, supported, doc) {
      DocumentReadIs(w, s, doc);
    }
  }

  lemma GoodMeans(w: World, s: Snapshot, supported: seq<U64>, doc: Document)
    requires ReadDocument(w, s.root) == Ok(doc) && Read(1, s.root, w.arith) == Ok(OfDocument(doc))
    requires DistinctKeys(doc.records) && DistinctKeys(doc.chunks) && DistinctKeys(doc.resources) && DistinctKeys(doc.segments)
    ensures Exact(w, s, supported) <==> Good(w, s, supported, doc)
  {
    hide ReadDocument, Read, CatalogsExact, CatalogsGood, NodeFits, NodeGood, PlacedPage, GeometrySound, GeometryGood, SegmentsExact, PartIn, Closed,
         Reachable, Referenced, EncodeRecord, StoreOf, Stores, DistinctKeys;
    CatalogsMean(w, s, doc, supported);
    SegmentsMean(w, s, doc);
    forall o | o in doc.pages
      ensures PlacedPage(w, s, o) <==> exists p :: Stores(w, s, o.recordId, 2, OfPage(p)) && p.id == o.objectId
    {
      PlacedPageMeans(w, s, o);
    }
    forall x | x in s.records
      ensures NodeFits(w, s, s.records[x]) <==> NodeGood(w, s, s.records[x])
      ensures GeometrySound(w, s, StoreOf(w, s, doc), s.records[x]) <==> GeometryGood(w, s, s.records[x])
    {
      NodeMeans(w, s, s.records[x]);
      SoundMeans(w, s, s.records[x]);
    }
  }
}
